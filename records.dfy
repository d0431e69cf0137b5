/** The mood and journal state of the app: what it holds in memory and what it
    mirrors to the browser's store. Each method is one user intent, run to
    completion; the time stamp and the new entry's id come in as parameters. */
module Engine {
  import opened Logs
  import opened Storage
  import opened JsText

  /** The prompt the journal page starts with. */
  const FirstPrompt: string := "What feels heavy today?"

  class Records {
    var store: Store
    var moodValue: Option<MoodEntry>
    var moodHistory: seq<MoodEntry>
    var journalPrompt: string
    var journalText: string
    var journalEntries: seq<JournalEntry>

    /** The store is well formed and the persisted fields (latest check-in,
        history, journal, draft) are what the store would load; the prompt is
        held in memory only. */
    ghost predicate Valid()
      reads this
    {
      SyncedExceptDraft() && journalText == LoadDraft(store)
    }

    /** `Valid` with the draft text possibly not yet autosaved: the state
        between an edit and the autosave that follows it. */
    ghost predicate SyncedExceptDraft()
      reads this
    {
      && WellFormed(store)
      && moodValue == LoadMoodLatest(store)
      && moodHistory == LoadMoodHistory(store)
      && journalEntries == LoadEntries(store)
    }

    /** Start-up: every piece of state is loaded from the store, and the draft
        autosave runs once, writing the loaded draft back under its key. */
    constructor (initial: Store)
      requires WellFormed(initial)
      ensures Valid()
      ensures moodValue == LoadMoodLatest(initial) && moodHistory == LoadMoodHistory(initial)
      ensures journalPrompt == FirstPrompt
      ensures journalText == LoadDraft(initial) && journalEntries == LoadEntries(initial)
      ensures store == initial[DraftKey := Text(LoadDraft(initial))]
    {
      moodValue := LoadMoodLatest(initial);
      moodHistory := LoadMoodHistory(initial);
      journalPrompt := FirstPrompt;
      journalText := LoadDraft(initial);
      journalEntries := LoadEntries(initial);
      store := initial;
      new;
      AutosaveDraft();
    }

    /** Record a check-in. The history it extends is the one in the store. */
    method SaveMood(level: string, timestamp: string)
      requires Valid()
      modifies this
      ensures Valid()
      ensures moodHistory == PrependBounded(MoodEntry(level, timestamp), old(moodHistory), MoodHistoryCap)
      ensures |moodHistory| <= MoodHistoryCap
      ensures moodValue == Some(MoodEntry(level, timestamp)) && moodValue == Some(moodHistory[0])
      ensures moodHistory[1..] == old(moodHistory)[..|moodHistory| - 1]
      ensures store == old(store)[HistoryKey := MoodList(moodHistory)][LatestKey := MoodValue(MoodEntry(level, timestamp))]
      ensures journalPrompt == old(journalPrompt) && journalText == old(journalText)
      ensures journalEntries == old(journalEntries)
    {
      var entry := MoodEntry(level, timestamp);
      var existing := LoadMoodHistory(store);
      var updated := PrependBounded(entry, existing, MoodHistoryCap);
      store := store[HistoryKey := MoodList(updated)];
      store := store[LatestKey := MoodValue(entry)];
      moodValue := Some(entry);
      moodHistory := updated;
    }

    /** Choose the prompt the next entry is saved with. */
    method SelectPrompt(prompt: string)
      requires Valid()
      modifies this
      ensures Valid()
      ensures journalPrompt == prompt
      ensures store == old(store) && journalText == old(journalText) && journalEntries == old(journalEntries)
      ensures moodValue == old(moodValue) && moodHistory == old(moodHistory)
    {
      journalPrompt := prompt;
    }

    /** The draft autosave, run after every render in which the draft text
        changed: the raw text is written under the draft key. */
    method AutosaveDraft()
      requires SyncedExceptDraft()
      modifies this
      ensures Valid()
      ensures store == old(store)[DraftKey := Text(journalText)]
      ensures journalText == old(journalText) && journalPrompt == old(journalPrompt)
      ensures journalEntries == old(journalEntries)
      ensures moodValue == old(moodValue) && moodHistory == old(moodHistory)
    {
      store := store[DraftKey := Text(journalText)];
    }

    /** Typing in the journal box: the text is taken verbatim and autosaved. */
    method EditDraft(text: string)
      requires Valid()
      modifies this
      ensures Valid()
      ensures journalText == text && LoadDraft(store) == text
      ensures store == old(store)[DraftKey := Text(text)]
      ensures journalPrompt == old(journalPrompt) && journalEntries == old(journalEntries)
      ensures moodValue == old(moodValue) && moodHistory == old(moodHistory)
    {
      journalText := text;
      AutosaveDraft();
    }

    /** Save the draft as a journal entry. A draft that is empty once trimmed
        is ignored; otherwise the trimmed text is saved, newest first and at
        most `JournalCap` entries, and the draft is cleared and its key removed. */
    method SaveJournalEntry(id: string, timestamp: string)
      requires Valid()
      modifies this
      ensures Valid()
      ensures Trim(old(journalText)) == [] ==>
        store == old(store) && journalText == old(journalText) && journalEntries == old(journalEntries)
      ensures Trim(old(journalText)) != [] ==>
        && journalEntries == PrependBounded(JournalEntry(id, old(journalPrompt), Trim(old(journalText)), timestamp),
                                            old(journalEntries), JournalCap)
        && journalEntries[0].text == Trim(old(journalText))
        && journalText == ""
        && store == old(store)[EntriesKey := EntryList(journalEntries)] - {DraftKey}
      ensures |old(journalEntries)| <= JournalCap ==> |journalEntries| <= JournalCap
      ensures DistinctIds(old(journalEntries)) && IdAbsent(old(journalEntries), id) ==> DistinctIds(journalEntries)
      ensures journalPrompt == old(journalPrompt)
      ensures moodValue == old(moodValue) && moodHistory == old(moodHistory)
    {
      var text := Trim(journalText);
      if text == [] {
        return;
      }
      var entry := JournalEntry(id, journalPrompt, text, timestamp);
      if DistinctIds(journalEntries) && IdAbsent(journalEntries, id) {
        PrependFreshIdDistinct(entry, journalEntries, JournalCap);
      }
      var updated := PrependBounded(entry, journalEntries, JournalCap);
      journalEntries := updated;
      store := store[EntriesKey := EntryList(updated)];
      journalText := "";
      store := store - {DraftKey};
    }

    /** Delete every entry carrying `id`, keeping the others in order. */
    method DeleteJournalEntry(id: string)
      requires Valid()
      modifies this
      ensures Valid()
      ensures journalEntries == WithoutId(old(journalEntries), id)
      ensures IdAbsent(journalEntries, id)
      ensures IdAbsent(old(journalEntries), id) ==> journalEntries == old(journalEntries)
      ensures DistinctIds(old(journalEntries)) ==> DistinctIds(journalEntries)
      ensures |journalEntries| <= |old(journalEntries)|
      ensures store == old(store)[EntriesKey := EntryList(journalEntries)]
      ensures journalPrompt == old(journalPrompt) && journalText == old(journalText)
      ensures moodValue == old(moodValue) && moodHistory == old(moodHistory)
    {
      var updated := WithoutId(journalEntries, id);
      if IdAbsent(journalEntries, id) {
        WithoutAbsentId(journalEntries, id);
      }
      if DistinctIds(journalEntries) {
        WithoutIdKeepsDistinct(journalEntries, id);
      }
      journalEntries := updated;
      store := store[EntriesKey := EntryList(updated)];
    }
  }
}

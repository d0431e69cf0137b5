/** The browser's key-value store as the app uses it: four keys, read when
    the app starts and written after every change. Values are kept as the
    structures the app serialises, so `JSON.stringify` followed by
    `JSON.parse` is the identity on them. */
module Storage {
  import opened Logs

  datatype Option<T> = None | Some(value: T)

  const LatestKey: string := "reflect_mood_latest"
  const HistoryKey: string := "reflect_mood_history"
  const DraftKey: string := "reflect_journal_draft"
  const EntriesKey: string := "reflect_journal_entries"

  /** What a key can hold. The draft is stored as plain text, the others as
      JSON documents. */
  datatype Stored =
    | MoodValue(entry: MoodEntry)
    | MoodList(moods: seq<MoodEntry>)
    | EntryList(entries: seq<JournalEntry>)
    | Text(text: string)

  type Store = map<string, Stored>

  /** Every key the app uses holds the kind of value the app writes there. */
  predicate WellFormed(st: Store)
  {
    && (LatestKey in st ==> st[LatestKey].MoodValue?)
    && (HistoryKey in st ==> st[HistoryKey].MoodList?)
    && (DraftKey in st ==> st[DraftKey].Text?)
    && (EntriesKey in st ==> st[EntriesKey].EntryList?)
  }

  /** `saved ? JSON.parse(saved) : null` on the latest check-in. */
  function LoadMoodLatest(st: Store): (r: Option<MoodEntry>)
    ensures LatestKey !in st ==> r == None
  {
    if LatestKey in st && st[LatestKey].MoodValue? then Some(st[LatestKey].entry) else None
  }

  /** `JSON.parse(getItem(...)) || []` on the mood history. */
  function LoadMoodHistory(st: Store): (r: seq<MoodEntry>)
    ensures HistoryKey !in st ==> r == []
  {
    if HistoryKey in st && st[HistoryKey].MoodList? then st[HistoryKey].moods else []
  }

  /** `getItem(...) || ""` on the draft. */
  function LoadDraft(st: Store): (r: string)
    ensures DraftKey !in st ==> r == ""
  {
    if DraftKey in st && st[DraftKey].Text? then st[DraftKey].text else ""
  }

  /** `JSON.parse(getItem(...)) || []` on the journal. */
  function LoadEntries(st: Store): (r: seq<JournalEntry>)
    ensures EntriesKey !in st ==> r == []
  {
    if EntriesKey in st && st[EntriesKey].EntryList? then st[EntriesKey].entries else []
  }

  /** What is written under a key reads back unchanged, and the other keys
      read as before. */
  lemma WriteThenLoad(st: Store, h: seq<MoodEntry>, e: MoodEntry, j: seq<JournalEntry>, t: string)
    ensures LoadMoodHistory(st[HistoryKey := MoodList(h)]) == h
    ensures LoadMoodLatest(st[LatestKey := MoodValue(e)]) == Some(e)
    ensures LoadEntries(st[EntriesKey := EntryList(j)]) == j
    ensures LoadDraft(st[DraftKey := Text(t)]) == t
    ensures LoadDraft(st - {DraftKey}) == ""
    ensures LoadMoodHistory(st[EntriesKey := EntryList(j)]) == LoadMoodHistory(st)
    ensures LoadEntries(st[HistoryKey := MoodList(h)][LatestKey := MoodValue(e)]) == LoadEntries(st)
    ensures LoadDraft(st[EntriesKey := EntryList(j)]) == LoadDraft(st)
  {
  }
}

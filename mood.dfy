/** The five check-in choices and the face each one is drawn with. */
module Mood {

  /** The buttons of the check-in page, in the order they are shown. */
  datatype MoodLevel = ReallyStruggling | Struggling | Steady | Coping | DoingOkay
  {
    /** The label shown on the button and stored as the entry's level. */
    function Label(): string
    {
      match this
      case ReallyStruggling => "Really struggling"
      case Struggling => "Struggling"
      case Steady => "Steady"
      case Coping => "Coping"
      case DoingOkay => "Doing okay"
    }

    /** The face key the button itself is drawn with. */
    function ButtonKey(): string
    {
      match this
      case ReallyStruggling => "really"
      case Struggling => "struggling"
      case Steady => "steady"
      case Coping => "coping"
      case DoingOkay => "okay"
    }
  }

  predicate IsMoodKey(key: string)
  {
    key == "really" || key == "struggling" || key == "steady" || key == "coping" || key == "okay"
  }

  /** The face a stored level is drawn with in the history row; anything that
      is not one of the five labels gets the neutral face. */
  function MoodKeyFromLevel(level: string): (key: string)
    ensures IsMoodKey(key)
  {
    if level == "Really struggling" then "really"
    else if level == "Struggling" then "struggling"
    else if level == "Steady" then "steady"
    else if level == "Coping" then "coping"
    else if level == "Doing okay" then "okay"
    else "steady"
  }

  /** A check-in saved from a button is shown in the history with the same
      face as that button. */
  lemma HistoryFaceMatchesButton(m: MoodLevel)
    ensures MoodKeyFromLevel(m.Label()) == m.ButtonKey()
  {
  }

  /** A level that is none of the five labels (say, one stored by another
      version of the app) gets the neutral face. */
  lemma UnknownLevelIsSteady(level: string)
    requires forall m: MoodLevel :: m.Label() != level
    ensures MoodKeyFromLevel(level) == "steady"
  {
    assert ReallyStruggling.Label() != level && Struggling.Label() != level;
    assert Coping.Label() != level && DoingOkay.Label() != level;
  }

  /** Different choices are shown with different faces. */
  lemma MoodKeyInjectiveOnLabels(m: MoodLevel, n: MoodLevel)
    ensures MoodKeyFromLevel(m.Label()) == MoodKeyFromLevel(n.Label()) <==> m == n
  {
  }
}

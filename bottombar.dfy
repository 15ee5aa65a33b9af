/** The link rules of components/shared/Bottombar.tsx: the same active-link rule as the
    left sidebar, and a caption cut down to its first word. */
module Bottombar {
  import opened Text
  import LeftSidebar

  /** The bar's links: Home lights up only on "/", and every other link on every path
      containing its route, and only there. */
  lemma BarLinkActive(pathname: string, k: nat)
    requires k < |LeftSidebar.SidebarRoutes|
    ensures k == 0 ==> (LeftSidebar.IsActive(pathname, LeftSidebar.SidebarRoutes[k]) <==> pathname == "/")
    ensures k > 0 ==> (LeftSidebar.IsActive(pathname, LeftSidebar.SidebarRoutes[k]) <==> Contains(pathname, LeftSidebar.SidebarRoutes[k]))
  {
    LeftSidebar.IsActiveCases(pathname, LeftSidebar.SidebarRoutes[k]);
  }

  /** `label.split(/\s+/)[0]`: the characters before the first whitespace. */
  function FirstWord(caption: string): (r: string)
    ensures IsPrefix(r, caption)
    ensures forall i :: 0 <= i < |r| ==> !IsWhitespace(r[i])
    ensures |r| < |caption| ==> IsWhitespace(caption[|r|])
  {
    if caption == [] || IsWhitespace(caption[0]) then [] else [caption[0]] + FirstWord(caption[1..])
  }

  /** The three properties above pin the label down: no other prefix has them. */
  lemma {:induction false} FirstWordUnique(caption: string, w: string)
    requires IsPrefix(w, caption)
    requires forall i :: 0 <= i < |w| ==> !IsWhitespace(w[i])
    requires |w| < |caption| ==> IsWhitespace(caption[|w|])
    ensures w == FirstWord(caption)
  {
    var r := FirstWord(caption);
    assert w == caption[..|w|] && r == caption[..|r|];
    assert |r| == |w|;
  }

  /** A word of letters followed by whitespace or the end is the first word. */
  lemma {:induction false} FirstWordOfLetters(w: string, rest: string)
    requires forall i :: 0 <= i < |w| ==> 'A' <= w[i] <= 'z'
    requires rest == [] || IsWhitespace(rest[0])
    ensures FirstWord(w + rest) == w
  {
    if w != [] {
      assert (w + rest)[1..] == w[1..] + rest;
      FirstWordOfLetters(w[1..], rest);
    } else {
      assert w + rest == rest;
    }
  }

  /** "New Workout" shows "New". */
  lemma NewWorkoutLabel()
    ensures FirstWord("New Workout") == "New"
  {
    assert "New Workout" == "New" + " Workout";
    FirstWordOfLetters("New", " Workout");
  }

  /** "Saved Workouts" shows "Saved". */
  lemma SavedWorkoutsLabel()
    ensures FirstWord("Saved Workouts") == "Saved"
  {
    assert "Saved Workouts" == "Saved" + " Workouts";
    FirstWordOfLetters("Saved", " Workouts");
  }

  /** "Progress" shows itself. */
  lemma ProgressLabel()
    ensures FirstWord("Progress") == "Progress"
  {
    assert "Progress" == "Progress" + "";
    FirstWordOfLetters("Progress", "");
  }

  /** The labels of the bar as shown. */
  lemma ShownLabels()
    ensures FirstWord("New Workout") == "New"
    ensures FirstWord("Saved Workouts") == "Saved"
    ensures FirstWord("Progress") == "Progress"
  {
    NewWorkoutLabel();
    SavedWorkoutsLabel();
    ProgressLabel();
  }
}

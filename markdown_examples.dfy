/**
 * Worked examples of the cleaning passes on short inputs: what a `###`
 * marker turns into, a bold marker that survives, why cleaning twice
 * can differ from cleaning once, and plain text passing through unchanged.
 */
module MarkdownExamples {
  import opened JsStrings
  import opened Markdown

  /** So a `###` heading marker is cut down to a single `#`, not removed. */
  lemma TripleHashLeavesOne()
    ensures CleanMarkers("###") == "#"
  {
    var s := "###";
    RemoveAllMissing(s, "**");
    assert s[..2] == "##" && s[2..] == "#";
    assert RemoveAll(s, "##") == RemoveAll("#", "##") == "#";
    TripleHashPassIsDead(s);
  }

  /** Cleaning can leave a bold marker behind: removing `##` joins the stars around it. */
  lemma CleanMarkersCanLeaveBold()
    ensures CleanMarkers("*##*") == "**"
  {
    StarsAroundHashesBoldStep();
    StarsAroundHashesHeadingStep();
    TripleHashPassIsDead("*##*");
  }

  /** The bold pass of `CleanMarkers` leaves `*##*` as it is. */
  lemma StarsAroundHashesBoldStep()
    ensures RemoveAll("*##*", "**") == "*##*"
  {
    var s := "*##*";
    assert s[1] == '#';
    assert s[..2] != "**";
    assert s[1..] == "##*" && s[1..][1..] == "#*" && s[1..][1..][1..] == "*";
    RemoveAllHead(s[1..], "**");
    RemoveAllHead(s[1..][1..], "**");
  }

  /** The heading pass of `CleanMarkers` turns `*##*` into `**`. */
  lemma StarsAroundHashesHeadingStep()
    ensures RemoveAll("*##*", "##") == "**"
  {
    var s := "*##*";
    RemoveAllHead(s, "##");
    assert s[1..] == "##*";
    assert s[1..][..2] == "##";
    assert s[1..][2..] == "*";
  }

  /** The content cleaning is not idempotent: a `*` between two `#` hides a `##`. */
  lemma NormalizeContentNotIdempotent()
    ensures NormalizeContent("#*#") == "##"
    ensures NormalizeContent(NormalizeContent("#*#")) == ""
  {
    HashStarHashBoldStep();
    HashStarHashHeadingSteps();
    HashStarHashStarStep();
    TrimOfTrimmed("##");
    DoubleHashSteps();
    TrimOfTrimmed("");
  }

  /** The bold pass of `NormalizeContent` leaves `#*#` as it is. */
  lemma HashStarHashBoldStep()
    ensures RemoveAll("#*#", "**") == "#*#"
  {
    var s := "#*#";
    RemoveAllHead(s, "**");
    assert s[1..] == "*#";
    assert s[1..][1] == '#';
    assert s[1..][..2] != "**";
    assert s[1..][1..] == "#";
  }

  /** The heading passes of `NormalizeContent` leave `#*#` as it is. */
  lemma HashStarHashHeadingSteps()
    ensures RemoveAll("#*#", "##") == "#*#"
    ensures RemoveAll("#*#", "###") == "#*#"
  {
    var s := "#*#";
    assert s[1] == '*';
    assert s[..2] != "##" && s[..3] != "###";
    assert s[1..] == "*#";
    RemoveAllHead(s[1..], "##");
    RemoveAllHead(s[1..], "###");
    assert s[1..][1..] == "#";
  }

  /** The star pass of `NormalizeContent` turns `#*#` into `##`. */
  lemma HashStarHashStarStep()
    ensures RemoveAll("#*#", "*") == "##"
  {
    var s := "#*#";
    RemoveAllHead(s, "*");
    assert s[1..] == "*#";
    assert RemoveAll("*#", "*") == "#";
  }

  /** The four passes of `NormalizeContent` on `##`: the heading pass empties it. */
  lemma DoubleHashSteps()
    ensures RemoveAll("##", "**") == "##"
    ensures RemoveAll("##", "##") == ""
    ensures RemoveAll("", "###") == ""
    ensures RemoveAll("", "*") == ""
  {
    var t := "##";
    RemoveAllMissing(t, "**");
    assert t[..2] == "##" && t[2..] == "";
  }

  /** Two plain paragraphs come through the content cleaning unchanged. */
  lemma PlainParagraphsUnchanged()
    ensures NormalizeContent("Intro paragraph.\n\nSecond paragraph.") == "Intro paragraph.\n\nSecond paragraph."
  {
    NormalizeContentKeepsPlainText("Intro paragraph.\n\nSecond paragraph.");
  }
}

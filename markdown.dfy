/**
 * How the blog front end cleans markdown markers out of generated text,
 * splits a post into paragraphs and decides which paragraphs render as
 * headings, and how it picks and cleans the fields of a generation reply.
 */
module Markdown {
  import opened Wrappers
  import opened JsStrings

  // ---------------------------------------------------------------------
  // The landing page's cleaning, paragraphs, headings and card excerpt
  // ---------------------------------------------------------------------

  /**
   * `s.replace(/\*\*\/g, '').replace(/##/g, '').replace(/###/g, '')`, the
   * cleaning the landing page applies to titles, excerpts, copied text and
   * the read view. Characters are only ever dropped, only `*` and `#` ones,
   * and no `##` is left.
   */
  function CleanMarkers(s: string): (r: string)
    ensures multiset(r) <= multiset(s)
    ensures forall c :: c != '*' && c != '#' ==> multiset(r)[c] == multiset(s)[c]
    ensures !Occurs(r, "##")
  {
    var x := RemoveAll(RemoveAll(s, "**"), "##");
    RemoveAllKeeps(s, "**");
    RemoveAllKeeps(RemoveAll(s, "**"), "##");
    RemoveAllPairGone(RemoveAll(s, "**"), '#');
    OccursOfPrefix(x, "###", "##");
    RemoveAllAbsent(x, "###");
    RemoveAll(x, "###")
  }

  /**
   * A run of three `#` loses its first two to the `##` pass, so one `#` is
   * left in front of what follows.
   */
  lemma TripleHashRunLeavesOne(v: string)
    requires v == [] || v[0] != '#'
    ensures RemoveAll("###" + v, "##") == "#" + RemoveAll(v, "##")
  {
    var s := "###" + v;
    assert s[..2] == "##" && s[2..] == "#" + v;
    var t := "#" + v;
    if v == [] {
      assert RemoveAll(t, "##") == "#";
    } else {
      assert t[..2] != "##" && t[1..] == v;
      assert RemoveAll(t, "##") == [t[0]] + RemoveAll(t[1..], "##");
    }
  }

  /**
   * The `###` pass can never match, because every `##` is gone by then.
   */
  lemma TripleHashPassIsDead(s: string)
    ensures CleanMarkers(s) == RemoveAll(RemoveAll(s, "**"), "##")
  {
    var x := RemoveAll(RemoveAll(s, "**"), "##");
    RemoveAllPairGone(RemoveAll(s, "**"), '#');
    OccursOfPrefix(x, "###", "##");
    RemoveAllAbsent(x, "###");
  }

  /** `pieces.filter(p => p.trim())`: the pieces that are not all white space, in order. */
  function KeepNonBlank(pieces: seq<string>): (r: seq<string>)
    ensures |r| <= |pieces|
    ensures forall k :: 0 <= k < |r| ==> Trim(r[k]) != ""
  {
    if pieces == [] then []
    else if Trim(pieces[0]) != "" then [pieces[0]] + KeepNonBlank(pieces[1..])
    else KeepNonBlank(pieces[1..])
  }

  /** A piece is kept, untrimmed, exactly when its trim is non-empty. */
  lemma {:induction false} KeepNonBlankMembers(pieces: seq<string>)
    ensures forall p :: p in KeepNonBlank(pieces) <==> p in pieces && Trim(p) != ""
    decreases |pieces|
  {
    if pieces != [] {
      KeepNonBlankMembers(pieces[1..]);
      assert pieces == [pieces[0]] + pieces[1..];
    }
  }

  /** Filtering keeps the order: filtering a concatenation filters each part in turn. */
  lemma {:induction false} KeepNonBlankConcat(a: seq<string>, b: seq<string>)
    ensures KeepNonBlank(a + b) == KeepNonBlank(a) + KeepNonBlank(b)
    decreases |a|
  {
    if a == [] {
      assert a + b == b;
    } else {
      var ab := a + b;
      assert ab[0] == a[0] && ab[1..] == a[1..] + b;
      KeepNonBlankConcat(a[1..], b);
      var rest := KeepNonBlank(a[1..]) + KeepNonBlank(b);
      if Trim(a[0]) != "" {
        assert KeepNonBlank(ab) == [a[0]] + rest;
        assert [a[0]] + rest == ([a[0]] + KeepNonBlank(a[1..])) + KeepNonBlank(b);
      } else {
        assert KeepNonBlank(ab) == rest;
      }
    }
  }

  /** The blank-line separator of paragraphs. */
  const ParagraphBreak: string := "\n\n"

  /**
   * `formatContent(content)`: the cleaned text split at blank lines, with
   * the pieces that are all white space dropped. The paragraphs are not
   * trimmed; none holds a blank-line separator or a `##`. A piece of the
   * split cleaned text is a paragraph exactly when it is not blank.
   */
  function FormatContent(content: string): (paragraphs: seq<string>)
    ensures forall p :: p in paragraphs <==> p in Split(CleanMarkers(content), ParagraphBreak) && Trim(p) != ""
    ensures forall k :: 0 <= k < |paragraphs| ==> Trim(paragraphs[k]) != ""
    ensures forall k :: 0 <= k < |paragraphs| ==> !Occurs(paragraphs[k], ParagraphBreak)
    ensures forall k :: 0 <= k < |paragraphs| ==> !Occurs(paragraphs[k], "##")
  {
    var cleaned := CleanMarkers(content);
    var pieces := Split(cleaned, ParagraphBreak);
    SplitPiecesFree(cleaned, ParagraphBreak);
    KeepNonBlankMembers(pieces);
    var r := KeepNonBlank(pieces);
    forall k | 0 <= k < |r| ensures !Occurs(r[k], "##") {
      var j :| 0 <= j < |pieces| && pieces[j] == r[k];
      OccursInJoin(pieces, ParagraphBreak, j, "##");
    }
    r
  }

  /**
   * The read view's test for rendering a paragraph as a heading: its trimmed
   * text is shorter than 80 characters, splits on spaces into fewer than 10
   * parts, does not end with a full stop, and it is not the first paragraph.
   */
  predicate IsHeading(paragraph: string, idx: nat)
    ensures IsHeading(paragraph, idx) ==> idx > 0 && |Trim(paragraph)| < 80
    ensures IsHeading(paragraph, idx) ==> Trim(paragraph) == [] || Trim(paragraph)[|Trim(paragraph)| - 1] != '.'
  {
    var clean := Trim(paragraph);
    |clean| < 80 && |Split(clean, " ")| < 10 && idx > 0 && !EndsWith(clean, ".")
  }

  /**
   * The heading test in plain terms: fewer than 10 space-separated parts
   * means fewer than 9 spaces, and the first paragraph is never a heading.
   */
  lemma HeadingRule(paragraph: string, idx: nat)
    ensures var clean := Trim(paragraph);
      IsHeading(paragraph, idx) <==>
        && idx > 0
        && |clean| < 80
        && Count(clean, ' ') < 9
        && (clean == [] || clean[|clean| - 1] != '.')
    ensures !IsHeading(paragraph, 0)
  {
    var clean := Trim(paragraph);
    SplitOnCharCount(clean, ' ');
    if clean != [] {
      assert EndsWith(clean, ".") <==> clean[|clean| - 1] == '.';
    }
  }

  /** A paragraph of the read view, rendered either as a heading or as body text. */
  datatype Block = Heading(text: string) | Body(text: string)

  /**
   * The read view of a post's content: one block per paragraph, holding the
   * trimmed paragraph, a heading exactly when the heading test holds at its
   * position, so the first block is always body text.
   */
  function ReadView(content: string): (blocks: seq<Block>)
    ensures |blocks| == |FormatContent(content)|
    ensures forall k :: 0 <= k < |blocks| ==> blocks[k].text == Trim(FormatContent(content)[k]) != ""
    ensures forall k :: 0 <= k < |blocks| ==> (blocks[k].Heading? <==> IsHeading(FormatContent(content)[k], k))
    ensures |blocks| > 0 ==> blocks[0].Body?
  {
    var ps := FormatContent(content);
    seq(|ps|, k requires 0 <= k < |ps| =>
      if IsHeading(ps[k], k) then Heading(Trim(ps[k])) else Body(Trim(ps[k])))
  }

  /** How many characters of cleaned content a post card shows. */
  const ExcerptLength: nat := 180

  /**
   * The post card's excerpt, `cleaned.substring(0, 180)`: the start of the
   * cleaned content, at most 180 characters, all of it when it is shorter.
   */
  function Excerpt(content: string): (r: string)
    ensures r <= CleanMarkers(content)
    ensures |r| == if |CleanMarkers(content)| < ExcerptLength then |CleanMarkers(content)| else ExcerptLength
    ensures |CleanMarkers(content)| <= ExcerptLength ==> r == CleanMarkers(content)
  {
    Prefix(CleanMarkers(content), ExcerptLength)
  }

  // ---------------------------------------------------------------------
  // The generator's reply fields and their cleaning
  // ---------------------------------------------------------------------

  /** A string-valued reply field is truthy in JavaScript: present and not empty. */
  predicate Present(field: Option<string>) {
    field.Some? && field.value != ""
  }

  /**
   * `a || b || ... || fallback` over string-valued fields: the first truthy
   * field, or the fallback when there is none.
   */
  function FirstPresent(fields: seq<Option<string>>, fallback: string): (r: string)
    ensures (forall i :: 0 <= i < |fields| ==> !Present(fields[i])) ==> r == fallback
    ensures forall i :: 0 <= i < |fields| && Present(fields[i]) && (forall j :: 0 <= j < i ==> !Present(fields[j])) ==> r == fields[i].value
  {
    if fields == [] then fallback
    else if Present(fields[0]) then fields[0].value
    else FirstPresent(fields[1..], fallback)
  }

  /** The text shown when a reply carries no content field. */
  const NoContent: string := "No content received from AI."

  /** The title used when a reply carries no title. */
  function FallbackTitle(topic: string): string {
    "Insightful Article on " + topic
  }

  /**
   * `.replace(/\*\*\/g, '').replace(/##/g, '').trim()`, the title cleaning:
   * no `##` is left and no white space at either end. What it keeps is
   * stated by `NormalizeTitleKeeps`.
   */
  function NormalizeTitle(title: string): (r: string)
    ensures !Occurs(r, "##")
    ensures r != [] ==> !IsWhiteSpace(r[0]) && !IsWhiteSpace(r[|r| - 1])
  {
    var x := RemoveAll(RemoveAll(title, "**"), "##");
    RemoveAllPairGone(RemoveAll(title, "**"), '#');
    TrimKeepsAbsence(x, "##");
    Trim(x)
  }

  /**
   * The title cleaning only drops characters: every one that is not `*`,
   * `#` or white space keeps its count, so the words of a title survive.
   */
  lemma NormalizeTitleKeeps(title: string)
    ensures multiset(NormalizeTitle(title)) <= multiset(title)
    ensures forall c :: c != '*' && c != '#' && !IsWhiteSpace(c) ==> multiset(NormalizeTitle(title))[c] == multiset(title)[c]
  {
    var x1 := RemoveAll(title, "**");
    var x2 := RemoveAll(x1, "##");
    var r := Trim(x2);
    assert NormalizeTitle(title) == r;
    RemoveAllKeeps(title, "**");
    RemoveAllKeeps(x1, "##");
    TrimKeeps(x2);
    assert multiset(r) <= multiset(x2) <= multiset(x1) <= multiset(title);
    forall c | c != '*' && c != '#' && !IsWhiteSpace(c)
      ensures multiset(r)[c] == multiset(title)[c]
    {
      assert c !in "**" && c !in "##";
      assert multiset(r)[c] == multiset(x2)[c] == multiset(x1)[c] == multiset(title)[c];
    }
  }

  /**
   * A title with no `**`, no `##` and no surrounding white space is kept as
   * it is: single `*` characters survive the title cleaning.
   */
  lemma NormalizeTitleKeepsCleanTitle(title: string)
    requires !Occurs(title, "**") && !Occurs(title, "##")
    requires title != [] ==> !IsWhiteSpace(title[0]) && !IsWhiteSpace(title[|title| - 1])
    ensures NormalizeTitle(title) == title
  {
    RemoveAllAbsent(title, "**");
    RemoveAllAbsent(title, "##");
    TrimOfTrimmed(title);
  }

  /**
   * The title of a new post: the reply's title when it is truthy, otherwise
   * the fallback built from the topic, cleaned either way. The fallback is
   * chosen before cleaning, so a title made only of markers cleans to "".
   */
  function ResolveTitle(title: Option<string>, topic: string): (r: string)
    ensures Present(title) ==> r == NormalizeTitle(title.value)
    ensures !Present(title) ==> r == NormalizeTitle(FallbackTitle(topic))
  {
    NormalizeTitle(FirstPresent([title], FallbackTitle(topic)))
  }

  /**
   * `.replace(/\*\*\/g, '').replace(/##/g, '').replace(/###/g, '')
   * .replace(/\*\/g, '').trim()`, the content cleaning: characters are only
   * dropped, every one that is not `*`, `#` or white space keeps its count,
   * no `*` is left and no white space at either end.
   */
  function NormalizeContent(raw: string): (r: string)
    ensures multiset(r) <= multiset(raw)
    ensures forall c :: c != '*' && c != '#' && !IsWhiteSpace(c) ==> multiset(r)[c] == multiset(raw)[c]
    ensures '*' !in r
    ensures r != [] ==> !IsWhiteSpace(r[0]) && !IsWhiteSpace(r[|r| - 1])
  {
    var x := RemoveAll(RemoveAll(RemoveAll(raw, "**"), "##"), "###");
    ContentPassesKeep(raw);
    RemoveAllCharGone(x, '*');
    Trim(RemoveAll(x, "*"))
  }

  /** The four removal passes and the trim drop characters, and only markers and white space. */
  lemma ContentPassesKeep(raw: string)
    ensures var r := Trim(RemoveAll(RemoveAll(RemoveAll(RemoveAll(raw, "**"), "##"), "###"), "*"));
      && multiset(r) <= multiset(raw)
      && forall c :: c != '*' && c != '#' && !IsWhiteSpace(c) ==> multiset(r)[c] == multiset(raw)[c]
  {
    var x1 := RemoveAll(raw, "**");
    var x2 := RemoveAll(x1, "##");
    var x3 := RemoveAll(x2, "###");
    var x4 := RemoveAll(x3, "*");
    var r := Trim(x4);
    RemoveAllKeeps(raw, "**");
    RemoveAllKeeps(x1, "##");
    RemoveAllKeeps(x2, "###");
    RemoveAllKeeps(x3, "*");
    TrimKeeps(x4);
    assert multiset(r) <= multiset(x4) <= multiset(x3) <= multiset(x2) <= multiset(x1) <= multiset(raw);
    forall c | c != '*' && c != '#' && !IsWhiteSpace(c)
      ensures multiset(r)[c] == multiset(raw)[c]
    {
      assert c !in "**" && c !in "##" && c !in "###" && c !in "*";
      assert multiset(r)[c] == multiset(x4)[c] == multiset(x3)[c] == multiset(x2)[c] == multiset(x1)[c] == multiset(raw)[c];
    }
  }

  /**
   * Text with no `*`, no `#` and no white space at either end comes through
   * the content cleaning unchanged.
   */
  lemma NormalizeContentKeepsPlainText(raw: string)
    requires '*' !in raw && '#' !in raw
    requires raw != [] ==> !IsWhiteSpace(raw[0]) && !IsWhiteSpace(raw[|raw| - 1])
    ensures NormalizeContent(raw) == raw
  {
    RemoveAllMissing(raw, "**");
    RemoveAllMissing(raw, "##");
    RemoveAllMissing(raw, "###");
    RemoveAllMissing(raw, "*");
    TrimOfTrimmed(raw);
  }

  /**
   * The content of a new post before cleaning: `blog`, else `response`,
   * else `content`, whichever comes first truthy, else the no-content
   * text. It is never empty.
   */
  function PickContent(blog: Option<string>, response: Option<string>, content: Option<string>): (r: string)
    ensures r != ""
    ensures Present(blog) ==> r == blog.value
    ensures !Present(blog) && Present(response) ==> r == response.value
    ensures !Present(blog) && !Present(response) && Present(content) ==> r == content.value
    ensures !Present(blog) && !Present(response) && !Present(content) ==> r == NoContent
  {
    var fields := [blog, response, content];
    var r := FirstPresent(fields, NoContent);
    assert Present(fields[0]) || Present(fields[1]) || Present(fields[2]) || r == NoContent;
    r
  }
}

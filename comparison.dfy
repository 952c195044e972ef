/** The data path of the `comparison` block (blocks/comparison/comparison.js):
    an optional JSON model and the authored DOM are resolved into a title, a
    description, two images, two vehicle titles and an ordered list of spec rows. */
module Comparison {
  import opened Outcome
  import opened Text
  import opened Collect

  // ---------------------------------------------------------------------------
  // Inputs

  /** One entry of the model's `comparisonItems` array. Every field is either
      absent (missing, `undefined` or `null`) or a string. */
  datatype Item = Item(labelText: Option<string>, leftValue: Option<string>, rightValue: Option<string>)

  /** The fields of the JSON model the block reads. `comparisonItems` is `None`
      unless the property holds an array; an array entry is `None` when it is
      `null` or otherwise falsy. */
  datatype ModelJson = ModelJson(
    title: Option<string>,
    description: Option<string>,
    leftImage: Option<string>,
    rightImage: Option<string>,
    leftAlt: Option<string>,
    rightAlt: Option<string>,
    leftTitle: Option<string>,
    rightTitle: Option<string>,
    comparisonItems: Option<seq<Option<Item>>>)

  /** A model none of whose fields is set. A JSON `null`, a number or any other
      value without these properties reads exactly like it. */
  const EmptyModel := ModelJson(None, None, None, None, None, None, None, None, None)

  /** The `script[type="application/json"]` element: missing, holding text that
      `JSON.parse` rejects, or holding a parsed model. */
  datatype Script = NoScript | Unparseable | Parsed(model: ModelJson)

  /** What the block reads from its authored DOM: the JSON script, the text of the
      first heading, the inner HTML of the first paragraph, the `src` of every
      image in document order, the cell texts of the first table's rows, and the
      text of every list item. */
  datatype Block = Block(
    script: Script,
    heading: Option<string>,
    paragraph: Option<string>,
    images: seq<string>,
    table: Option<seq<seq<string>>>,
    listItems: seq<string>)

  // ---------------------------------------------------------------------------
  // Output

  datatype SpecRow = SpecRow(labelText: string, leftValue: string, rightValue: string)

  datatype Image = Image(src: string, alt: string)

  /** The rebuilt block: the title, the left image (if any), the two vehicle
      titles, the description (if any), the spec rows and the right image (if any). */
  datatype View = View(
    title: string,
    leftImage: Option<Image>,
    leftTitle: string,
    rightTitle: string,
    description: Option<string>,
    specs: seq<SpecRow>,
    rightImage: Option<Image>)

  // ---------------------------------------------------------------------------
  // Fallback chains

  /** JavaScript truthiness of a value that is absent or a string. */
  predicate Truthy(v: Option<string>)
  {
    v.Some? && v.value != ""
  }

  /** `c0 || c1 || ... || fallback` over values that are absent or strings. */
  function FirstTruthy(cands: seq<Option<string>>, fallback: string): (r: string)
    ensures r == fallback || exists i :: 0 <= i < |cands| && cands[i] == Some(r) && r != ""
  {
    if cands == [] then fallback
    else if Truthy(cands[0]) then cands[0].value
    else
      var r := FirstTruthy(cands[1..], fallback);
      assert r != fallback ==> exists i :: 1 <= i < |cands| && cands[i] == Some(r) && r != "" by {
        if r != fallback {
          var i :| 0 <= i < |cands[1..]| && cands[1..][i] == Some(r) && r != "";
          assert cands[i + 1] == Some(r);
        }
      }
      r
  }

  /** The chain yields the first truthy candidate: later candidates are not consulted. */
  lemma {:induction false} FirstTruthyPicks(cands: seq<Option<string>>, fallback: string, k: nat)
    requires k < |cands| && Truthy(cands[k])
    requires forall j :: 0 <= j < k ==> !Truthy(cands[j])
    ensures FirstTruthy(cands, fallback) == cands[k].value
  {
    if k > 0 {
      FirstTruthyPicks(cands[1..], fallback, k - 1);
    }
  }

  /** With no truthy candidate the chain yields the fallback. */
  lemma FirstTruthyFallback(cands: seq<Option<string>>, fallback: string)
    requires forall j :: 0 <= j < |cands| ==> !Truthy(cands[j])
    ensures FirstTruthy(cands, fallback) == fallback
  {
  }

  /** `v || fallback` */
  lemma FirstTruthySingle(v: Option<string>, fallback: string)
    ensures FirstTruthy([v], fallback) == if Truthy(v) then v.value else fallback
  {
    if Truthy(v) { FirstTruthyPicks([v], fallback, 0); } else { FirstTruthyFallback([v], fallback); }
  }

  /** The model in effect: a missing or unparseable script reads as a model with no fields. */
  function ModelOf(s: Script): (m: ModelJson)
    ensures s.Parsed? ==> m == s.model
    ensures !s.Parsed? ==> m == EmptyModel
  {
    match s
    case Parsed(model) => model
    case _ => EmptyModel
  }

  function TrimOpt(v: Option<string>): (r: Option<string>)
    ensures r.Some? <==> v.Some?
    ensures v.Some? ==> r.value == Trim(v.value)
  {
    match v
    case Some(s) => Some(Trim(s))
    case None => None
  }

  /** The `i`-th image's `src`, if there is an `i`-th image. */
  function ImageSrc(images: seq<string>, i: nat): (r: Option<string>)
    ensures r.Some? <==> i < |images|
    ensures i < |images| ==> r.value == images[i]
  {
    if i < |images| then Some(images[i]) else None
  }

  const DefaultTitle := "Compare models"
  const DefaultLeftAlt := "Left image"
  const DefaultRightAlt := "Right image"

  function Title(b: Block): (r: string)
    ensures r != ""
  {
    FirstTruthy([ModelOf(b.script).title, TrimOpt(b.heading)], DefaultTitle)
  }

  function Description(b: Block): (r: string)
  {
    FirstTruthy([ModelOf(b.script).description, TrimOpt(b.paragraph)], "")
  }

  function LeftSrc(b: Block): (r: string)
  {
    FirstTruthy([ModelOf(b.script).leftImage, ImageSrc(b.images, 0)], "")
  }

  function RightSrc(b: Block): (r: string)
  {
    FirstTruthy([ModelOf(b.script).rightImage, ImageSrc(b.images, 1), ImageSrc(b.images, 0)], "")
  }

  /** The left `img`, emitted only when its source is non-empty. */
  function LeftImage(b: Block): (r: Option<Image>)
    ensures r.Some? <==> LeftSrc(b) != ""
    ensures r.Some? ==> r.value.src == LeftSrc(b)
    ensures r.Some? ==>
      r.value.alt == (if Truthy(ModelOf(b.script).leftAlt) then ModelOf(b.script).leftAlt.value else DefaultLeftAlt)
  {
    var src := LeftSrc(b);
    var alt := [ModelOf(b.script).leftAlt];
    FirstTruthySingle(alt[0], DefaultLeftAlt);
    if src != "" then Some(Image(src, FirstTruthy(alt, DefaultLeftAlt))) else None
  }

  /** The right `img`, emitted only when its source is non-empty. */
  function RightImage(b: Block): (r: Option<Image>)
    ensures r.Some? <==> RightSrc(b) != ""
    ensures r.Some? ==> r.value.src == RightSrc(b)
    ensures r.Some? ==>
      r.value.alt == (if Truthy(ModelOf(b.script).rightAlt) then ModelOf(b.script).rightAlt.value else DefaultRightAlt)
  {
    var src := RightSrc(b);
    var alt := [ModelOf(b.script).rightAlt];
    FirstTruthySingle(alt[0], DefaultRightAlt);
    if src != "" then Some(Image(src, FirstTruthy(alt, DefaultRightAlt))) else None
  }

  function LeftTitle(b: Block): string
  {
    FirstTruthy([ModelOf(b.script).leftTitle], "")
  }

  function RightTitle(b: Block): string
  {
    FirstTruthy([ModelOf(b.script).rightTitle], "")
  }

  /** The title is the model's title if non-empty, else the trimmed first heading
      if non-empty, else the default; it is never empty. */
  lemma TitleChain(b: Block)
    ensures Truthy(ModelOf(b.script).title) ==> Title(b) == ModelOf(b.script).title.value
    ensures !Truthy(ModelOf(b.script).title) && b.heading.Some? && Trim(b.heading.value) != ""
      ==> Title(b) == Trim(b.heading.value)
    ensures !Truthy(ModelOf(b.script).title) && (b.heading.None? || Trim(b.heading.value) == "")
      ==> Title(b) == DefaultTitle
  {
    var cands := [ModelOf(b.script).title, TrimOpt(b.heading)];
    if Truthy(cands[0]) {
      FirstTruthyPicks(cands, DefaultTitle, 0);
    } else if Truthy(cands[1]) {
      FirstTruthyPicks(cands, DefaultTitle, 1);
    } else {
      FirstTruthyFallback(cands, DefaultTitle);
    }
  }

  /** The description is the model's description if non-empty, else the trimmed
      inner HTML of the first paragraph, else empty. */
  lemma DescriptionChain(b: Block)
    ensures Truthy(ModelOf(b.script).description) ==> Description(b) == ModelOf(b.script).description.value
    ensures !Truthy(ModelOf(b.script).description) && b.paragraph.Some?
      ==> Description(b) == Trim(b.paragraph.value)
    ensures !Truthy(ModelOf(b.script).description) && b.paragraph.None? ==> Description(b) == ""
  {
    var cands := [ModelOf(b.script).description, TrimOpt(b.paragraph)];
    if Truthy(cands[0]) {
      FirstTruthyPicks(cands, "", 0);
    } else if Truthy(cands[1]) {
      FirstTruthyPicks(cands, "", 1);
    } else {
      FirstTruthyFallback(cands, "");
    }
  }

  /** The left source is `leftImage`, then the first image, then empty; the right
      source is `rightImage`, then the second image, then the first image, then empty. */
  lemma ImageChains(b: Block)
    ensures var m := ModelOf(b.script);
      && (Truthy(m.leftImage) ==> LeftSrc(b) == m.leftImage.value)
      && (!Truthy(m.leftImage) ==> LeftSrc(b) == if |b.images| > 0 then b.images[0] else "")
      && (Truthy(m.rightImage) ==> RightSrc(b) == m.rightImage.value)
      && (!Truthy(m.rightImage) && |b.images| > 1 && b.images[1] != "" ==> RightSrc(b) == b.images[1])
      && ((!Truthy(m.rightImage) && (|b.images| <= 1 || b.images[1] == ""))
            ==> RightSrc(b) == if |b.images| > 0 then b.images[0] else "")
  {
    var m := ModelOf(b.script);
    var lc := [m.leftImage, ImageSrc(b.images, 0)];
    if Truthy(lc[0]) {
      FirstTruthyPicks(lc, "", 0);
    } else if Truthy(lc[1]) {
      FirstTruthyPicks(lc, "", 1);
    } else {
      FirstTruthyFallback(lc, "");
    }
    var rc := [m.rightImage, ImageSrc(b.images, 1), ImageSrc(b.images, 0)];
    if Truthy(rc[0]) {
      FirstTruthyPicks(rc, "", 0);
    } else if Truthy(rc[1]) {
      FirstTruthyPicks(rc, "", 1);
    } else if Truthy(rc[2]) {
      FirstTruthyPicks(rc, "", 2);
    } else {
      FirstTruthyFallback(rc, "");
    }
  }

  /** With no model images and a single authored image, that image serves both sides. */
  lemma OneImageServesBoth(b: Block)
    requires !Truthy(ModelOf(b.script).leftImage) && !Truthy(ModelOf(b.script).rightImage)
    requires |b.images| == 1
    ensures LeftSrc(b) == RightSrc(b) == b.images[0]
  {
    ImageChains(b);
  }

  /** The vehicle titles are the model's, or empty. */
  lemma VehicleTitleDefaults(b: Block)
    ensures LeftTitle(b) == if Truthy(ModelOf(b.script).leftTitle) then ModelOf(b.script).leftTitle.value else ""
    ensures RightTitle(b) == if Truthy(ModelOf(b.script).rightTitle) then ModelOf(b.script).rightTitle.value else ""
  {
    FirstTruthySingle(ModelOf(b.script).leftTitle, "");
    FirstTruthySingle(ModelOf(b.script).rightTitle, "");
  }

  /** A script that does not parse resolves every field as if there were no script. */
  lemma UnparseableIsAbsent(b: Block)
    requires b.script == Unparseable
    ensures Title(b) == Title(b.(script := NoScript))
    ensures Description(b) == Description(b.(script := NoScript))
    ensures LeftImage(b) == LeftImage(b.(script := NoScript))
    ensures RightImage(b) == RightImage(b.(script := NoScript))
    ensures SpecRows(b) == SpecRows(b.(script := NoScript))
    ensures ItemRows(b) == []
  {
  }

  // ---------------------------------------------------------------------------
  // Splitting a list item on `/\s*[-–—:]\s*/`

  predicate IsSeparator(c: char)
  {
    c == '-' || c == '\U{2013}' || c == '\U{2014}' || c == ':'
  }

  /** Length of the run of white space that starts at `q`. */
  function SpaceRun(s: string, q: nat): (n: nat)
    requires q <= |s|
    ensures q + n <= |s|
    ensures forall j :: q <= j < q + n ==> IsSpace(s[j])
    ensures q + n < |s| ==> !IsSpace(s[q + n])
    decreases |s| - q
  {
    if q < |s| && IsSpace(s[q]) then 1 + SpaceRun(s, q + 1) else 0
  }

  /** Where a match of the separator pattern starting exactly at `q` ends, if there
      is one: white space, one separator character, then as much white space as follows. */
  function MatchEnd(s: string, q: nat): (e: Option<nat>)
    requires q <= |s|
    ensures e.Some? ==> q < e.value <= |s|
  {
    var w := q + SpaceRun(s, q);
    if w < |s| && IsSeparator(s[w]) then Some(w + 1 + SpaceRun(s, w + 1)) else None
  }

  /** `String.prototype.split` with the separator pattern: the current part starts
      at `p`, and a match is sought at `q`, then at `q + 1`, and so on. */
  function SplitFrom(s: string, p: nat, q: nat): (parts: seq<string>)
    requires p <= q <= |s|
    ensures |parts| >= 1
    decreases |s| - q
  {
    if q == |s| then [s[p..]]
    else
      match MatchEnd(s, q)
      case Some(e) => [s[p..q]] + SplitFrom(s, e, e)
      case None => SplitFrom(s, p, q + 1)
  }

  function Split(s: string): seq<string>
  {
    SplitFrom(s, 0, 0)
  }

  /** Number of separator characters in `s`. */
  function SeparatorCount(s: string): nat
  {
    if s == [] then 0 else (if IsSeparator(s[0]) then 1 else 0) + SeparatorCount(s[1..])
  }

  lemma {:induction false} SeparatorCountSkip(s: string, a: nat, b: nat)
    requires a <= b <= |s|
    requires forall j :: a <= j < b ==> !IsSeparator(s[j])
    ensures SeparatorCount(s[a..]) == SeparatorCount(s[b..])
    decreases b - a
  {
    if a < b {
      assert s[a..][1..] == s[a + 1..];
      SeparatorCountSkip(s, a + 1, b);
    }
  }

  lemma SpaceIsNotSeparator(c: char)
    requires IsSpace(c)
    ensures !IsSeparator(c)
  {
  }

  /** A match spans exactly one separator character. */
  lemma MatchCount(s: string, q: nat)
    requires q < |s| && MatchEnd(s, q).Some?
    ensures SeparatorCount(s[q..]) == 1 + SeparatorCount(s[MatchEnd(s, q).value..])
  {
    var w := q + SpaceRun(s, q);
    var e := MatchEnd(s, q).value;
    forall j | q <= j < w ensures !IsSeparator(s[j]) {
      SpaceIsNotSeparator(s[j]);
    }
    SeparatorCountSkip(s, q, w);
    assert s[w..][0] == s[w] && s[w..][1..] == s[w + 1..];
    forall j | w + 1 <= j < e ensures !IsSeparator(s[j]) {
      SpaceIsNotSeparator(s[j]);
    }
    SeparatorCountSkip(s, w + 1, e);
  }

  /** Where no match starts, the character there is not a separator. */
  lemma NoMatchCount(s: string, q: nat)
    requires q < |s| && MatchEnd(s, q).None?
    ensures SeparatorCount(s[q..]) == SeparatorCount(s[q + 1..])
  {
    if IsSeparator(s[q]) { SeparatorMatches(s, q); }
    assert s[q..][1..] == s[q + 1..];
  }

  lemma {:induction false} SplitFromCount(s: string, p: nat, q: nat)
    requires p <= q <= |s|
    ensures |SplitFrom(s, p, q)| == 1 + SeparatorCount(s[q..])
    decreases |s| - q
  {
    if q < |s| {
      if MatchEnd(s, q).Some? {
        var e := MatchEnd(s, q).value;
        MatchCount(s, q);
        SplitFromCount(s, e, e);
        assert SplitFrom(s, p, q) == [s[p..q]] + SplitFrom(s, e, e);
      } else {
        NoMatchCount(s, q);
        SplitFromCount(s, p, q + 1);
        assert SplitFrom(s, p, q) == SplitFrom(s, p, q + 1);
      }
    }
  }

  /** Every separator character splits: the parts number one more than the separators. */
  lemma SplitCount(s: string)
    ensures |Split(s)| == 1 + SeparatorCount(s)
  {
    SplitFromCount(s, 0, 0);
  }

  /** No part holds a separator character. */
  predicate NoSeparatorIn(parts: seq<string>)
  {
    forall k, j :: 0 <= k < |parts| && 0 <= j < |parts[k]| ==> !IsSeparator(parts[k][j])
  }

  /** The parts from index `from` on do not start with white space. */
  predicate StartsTrimmed(parts: seq<string>, from: nat)
  {
    forall k :: from <= k < |parts| && parts[k] != [] ==> !IsSpace(parts[k][0])
  }

  /** The parts before the last do not end with white space. */
  predicate EndsTrimmed(parts: seq<string>)
  {
    forall k :: 0 <= k < |parts| - 1 && parts[k] != [] ==> !IsSpace(parts[k][|parts[k]| - 1])
  }

  /** No match of the separator pattern starts in `[p, q)`. */
  predicate NoMatchIn(s: string, p: nat, q: nat)
    requires p <= q <= |s|
  {
    forall j :: p <= j < q ==> MatchEnd(s, j).None?
  }

  /** A separator character always starts a match. */
  lemma SeparatorMatches(s: string, j: nat)
    requires j < |s| && IsSeparator(s[j])
    ensures MatchEnd(s, j).Some?
  {
  }

  /** White space just before a match start would have started the match itself. */
  lemma SpaceBeforeMatch(s: string, q: nat)
    requires 0 < q < |s| && IsSpace(s[q - 1]) && MatchEnd(s, q).Some?
    ensures MatchEnd(s, q - 1).Some?
  {
    assert SpaceRun(s, q - 1) == 1 + SpaceRun(s, q);
  }

  lemma {:induction false} SplitFromShape(s: string, p: nat, q: nat)
    requires p <= q <= |s|
    requires NoMatchIn(s, p, q)
    requires p > 0 && p < |s| ==> !IsSpace(s[p])
    ensures NoSeparatorIn(SplitFrom(s, p, q))
    ensures StartsTrimmed(SplitFrom(s, p, q), if p > 0 then 0 else 1)
    ensures EndsTrimmed(SplitFrom(s, p, q))
    decreases |s| - q, 1
  {
    if q == |s| {
      NoMatchNoSeparator(s, p, q);
      assert SplitFrom(s, p, q) == [s[p..]];
    } else if MatchEnd(s, q).Some? {
      ShapeMatchCase(s, p, q);
    } else {
      SplitFromShape(s, p, q + 1);
      assert SplitFrom(s, p, q) == SplitFrom(s, p, q + 1);
    }
  }

  lemma {:induction false} ShapeMatchCase(s: string, p: nat, q: nat)
    requires p <= q < |s| && MatchEnd(s, q).Some?
    requires NoMatchIn(s, p, q)
    requires p > 0 && p < |s| ==> !IsSpace(s[p])
    ensures NoSeparatorIn(SplitFrom(s, p, q))
    ensures StartsTrimmed(SplitFrom(s, p, q), if p > 0 then 0 else 1)
    ensures EndsTrimmed(SplitFrom(s, p, q))
    decreases |s| - q, 0
  {
    var e := MatchEnd(s, q).value;
    SplitFromShape(s, e, e);
    MatchStep(s, p, q);
  }

  lemma NoMatchNoSeparator(s: string, p: nat, q: nat)
    requires p <= q <= |s| && NoMatchIn(s, p, q)
    ensures forall j :: p <= j < q ==> !IsSeparator(s[j])
  {
    forall j | p <= j < q ensures !IsSeparator(s[j]) {
      if IsSeparator(s[j]) { SeparatorMatches(s, j); }
    }
  }

  /** One step of the split at a match: the part before it is separator-free and
      does not end with white space, and the remainder starts after the white space. */
  lemma MatchStep(s: string, p: nat, q: nat)
    requires p <= q < |s| && NoMatchIn(s, p, q) && MatchEnd(s, q).Some?
    requires p > 0 && p < |s| ==> !IsSpace(s[p])
    requires var e := MatchEnd(s, q).value;
      NoSeparatorIn(SplitFrom(s, e, e)) && StartsTrimmed(SplitFrom(s, e, e), 0) && EndsTrimmed(SplitFrom(s, e, e))
    ensures NoSeparatorIn(SplitFrom(s, p, q))
    ensures StartsTrimmed(SplitFrom(s, p, q), if p > 0 then 0 else 1)
    ensures EndsTrimmed(SplitFrom(s, p, q))
  {
    var e := MatchEnd(s, q).value;
    PartBeforeMatch(s, p, q);
    assert SplitFrom(s, p, q) == [s[p..q]] + SplitFrom(s, e, e);
    ConsShape(s[p..q], SplitFrom(s, e, e), p > 0);
  }

  /** The part that a match closes holds no separator and does not end with white
      space; it starts with none unless it is the first part. */
  lemma PartBeforeMatch(s: string, p: nat, q: nat)
    requires p <= q < |s| && NoMatchIn(s, p, q) && MatchEnd(s, q).Some?
    requires p > 0 && p < |s| ==> !IsSpace(s[p])
    ensures forall j :: 0 <= j < q - p ==> !IsSeparator(s[p..q][j])
    ensures p > 0 && p < q ==> !IsSpace(s[p..q][0])
    ensures p < q ==> !IsSpace(s[p..q][q - p - 1])
  {
    var first := s[p..q];
    NoMatchNoSeparator(s, p, q);
    assert forall j :: 0 <= j < |first| ==> first[j] == s[p + j];
    if p < q && IsSpace(s[q - 1]) {
      SpaceBeforeMatch(s, q);
    }
  }

  lemma ConsShape(first: string, rest: seq<string>, trimmedStart: bool)
    requires forall j :: 0 <= j < |first| ==> !IsSeparator(first[j])
    requires trimmedStart && first != [] ==> !IsSpace(first[0])
    requires first != [] ==> !IsSpace(first[|first| - 1])
    requires NoSeparatorIn(rest) && StartsTrimmed(rest, 0) && EndsTrimmed(rest)
    ensures NoSeparatorIn([first] + rest)
    ensures StartsTrimmed([first] + rest, if trimmedStart then 0 else 1)
    ensures EndsTrimmed([first] + rest)
  {
    var parts := [first] + rest;
    forall k, j | 0 <= k < |parts| && 0 <= j < |parts[k]| ensures !IsSeparator(parts[k][j]) {
      if k > 0 { assert parts[k] == rest[k - 1]; }
    }
    forall k | (if trimmedStart then 0 else 1) <= k < |parts| && parts[k] != [] ensures !IsSpace(parts[k][0]) {
      if k > 0 { assert parts[k] == rest[k - 1]; }
    }
    forall k | 0 <= k < |parts| - 1 && parts[k] != [] ensures !IsSpace(parts[k][|parts[k]| - 1]) {
      if k > 0 { assert parts[k] == rest[k - 1]; }
    }
  }

  /** The separator pattern absorbs the white space around each separator: no part
      holds a separator, a part after the first does not start with white space, and
      a part before the last does not end with it. Empty parts are kept. */
  lemma SplitShape(s: string)
    ensures NoSeparatorIn(Split(s))
    ensures StartsTrimmed(Split(s), 1)
    ensures EndsTrimmed(Split(s))
  {
    SplitFromShape(s, 0, 0);
  }

  /** The plain reference split: the text between consecutive separator
      characters, white space included. The current segment starts at `p`, and
      `q` is the next character to look at. */
  function SegmentsFrom(s: string, p: nat, q: nat): (parts: seq<string>)
    requires p <= q <= |s|
    decreases |s| - q
  {
    if q == |s| then [s[p..]]
    else if IsSeparator(s[q]) then [s[p..q]] + SegmentsFrom(s, q + 1, q + 1)
    else SegmentsFrom(s, p, q + 1)
  }

  function Segments(s: string): seq<string>
  {
    SegmentsFrom(s, 0, 0)
  }

  /** Characters that are not separators do not end a segment. */
  lemma {:induction false} SegmentsSkip(s: string, p: nat, a: nat, b: nat)
    requires p <= a <= b <= |s|
    requires forall j :: a <= j < b ==> !IsSeparator(s[j])
    ensures SegmentsFrom(s, p, a) == SegmentsFrom(s, p, b)
    decreases b - a
  {
    if a < b {
      SegmentsSkip(s, p, a + 1, b);
    }
  }

  /** Every part trimmed. */
  function TrimAll(parts: seq<string>): seq<string>
  {
    if parts == [] then [] else [Trim(parts[0])] + TrimAll(parts[1..])
  }

  lemma TrimAllCons(x: string, xs: seq<string>)
    ensures TrimAll([x] + xs) == [Trim(x)] + TrimAll(xs)
  {
    assert ([x] + xs)[1..] == xs;
  }

  lemma {:induction false} TrimAllAt(parts: seq<string>)
    ensures |TrimAll(parts)| == |parts|
    ensures forall k :: 0 <= k < |parts| ==> TrimAll(parts)[k] == Trim(parts[k])
  {
    if parts != [] {
      TrimAllAt(parts[1..]);
    }
  }

  /** The split, from a part that starts at `p` after white space that follows the
      last separator at `r - 1`, agrees up to trimming with the plain segments. */
  lemma {:induction false} SplitFromSegments(s: string, r: nat, p: nat, q: nat)
    requires r <= p <= q <= |s|
    requires forall j :: r <= j < p ==> IsSpace(s[j])
    ensures TrimAll(SplitFrom(s, p, q)) == TrimAll(SegmentsFrom(s, r, q))
    decreases |s| - q, 1
  {
    if q == |s| {
      EndSegments(s, r, p);
    } else if MatchEnd(s, q).Some? {
      MatchCase(s, r, p, q);
    } else {
      NoMatchCase(s, r, p, q);
    }
  }

  /** A match at `q` closes both the part and the segment; both go on after it. */
  lemma {:induction false} MatchCase(s: string, r: nat, p: nat, q: nat)
    requires r <= p <= q < |s| && MatchEnd(s, q).Some?
    requires forall j :: r <= j < p ==> IsSpace(s[j])
    ensures TrimAll(SplitFrom(s, p, q)) == TrimAll(SegmentsFrom(s, r, q))
    decreases |s| - q, 0
  {
    var w := q + SpaceRun(s, q);
    var e := MatchEnd(s, q).value;
    MatchUnfold(s, r, p, q);
    SplitFromSegments(s, w + 1, e, e);
    MatchSegments(s, r, p, q);
  }

  /** No match at `q`: both the part and the segment go on. */
  lemma {:induction false} NoMatchCase(s: string, r: nat, p: nat, q: nat)
    requires r <= p <= q < |s| && MatchEnd(s, q).None?
    requires forall j :: r <= j < p ==> IsSpace(s[j])
    ensures TrimAll(SplitFrom(s, p, q)) == TrimAll(SegmentsFrom(s, r, q))
    decreases |s| - q, 0
  {
    NoMatchUnfold(s, r, p, q);
    SplitFromSegments(s, r, p, q + 1);
  }

  /** The last part and the last segment differ only by white space at the front. */
  lemma EndSegments(s: string, r: nat, p: nat)
    requires r <= p <= |s|
    requires forall j :: r <= j < p ==> IsSpace(s[j])
    ensures TrimAll(SplitFrom(s, p, |s|)) == TrimAll(SegmentsFrom(s, r, |s|))
  {
    TrimAround(s, r, p, |s|, |s|);
    assert s[p..] == s[p..|s|] && s[r..] == s[r..|s|];
  }

  /** Where no match starts, neither the split nor the segments end a part. */
  lemma NoMatchUnfold(s: string, r: nat, p: nat, q: nat)
    requires r <= p <= q < |s| && MatchEnd(s, q).None?
    ensures SplitFrom(s, p, q) == SplitFrom(s, p, q + 1)
    ensures SegmentsFrom(s, r, q) == SegmentsFrom(s, r, q + 1)
  {
    if IsSeparator(s[q]) { SeparatorMatches(s, q); }
  }

  /** One match step: the part before the match and its segment agree up to
      trimming, and so do the rest of the split and the rest of the segments. */
  lemma MatchSegments(s: string, r: nat, p: nat, q: nat)
    requires r <= p <= q < |s| && MatchEnd(s, q).Some?
    requires forall j :: r <= j < p ==> IsSpace(s[j])
    requires var w := q + SpaceRun(s, q);
      TrimAll(SplitFrom(s, MatchEnd(s, q).value, MatchEnd(s, q).value)) == TrimAll(SegmentsFrom(s, w + 1, MatchEnd(s, q).value))
    ensures TrimAll(SplitFrom(s, p, q)) == TrimAll(SegmentsFrom(s, r, q))
  {
    var w := q + SpaceRun(s, q);
    var e := MatchEnd(s, q).value;
    MatchUnfold(s, r, p, q);
    TrimAround(s, r, p, q, w);
    TrimAllCons(s[p..q], SplitFrom(s, e, e));
    TrimAllCons(s[r..w], SegmentsFrom(s, w + 1, e));
  }

  /** At a match, the split emits the part before it and the segments emit the
      text up to the separator; both then go on after the match. */
  lemma MatchUnfold(s: string, r: nat, p: nat, q: nat)
    requires r <= p <= q < |s| && MatchEnd(s, q).Some?
    ensures var w := q + SpaceRun(s, q);
      && w < |s| && forall j :: q <= j < w ==> IsSpace(s[j])
    ensures var w := q + SpaceRun(s, q); var e := MatchEnd(s, q).value;
      && w + 1 <= e && forall j :: w + 1 <= j < e ==> IsSpace(s[j])
    ensures var w := q + SpaceRun(s, q); var e := MatchEnd(s, q).value;
      && SplitFrom(s, p, q) == [s[p..q]] + SplitFrom(s, e, e)
      && SegmentsFrom(s, r, q) == [s[r..w]] + SegmentsFrom(s, w + 1, e)
  {
    var w := q + SpaceRun(s, q);
    var e := MatchEnd(s, q).value;
    assert IsSeparator(s[w]) && e == w + 1 + SpaceRun(s, w + 1);
    forall j | q <= j < w ensures !IsSeparator(s[j]) { SpaceIsNotSeparator(s[j]); }
    forall j | w + 1 <= j < e ensures !IsSeparator(s[j]) { SpaceIsNotSeparator(s[j]); }
    SegmentsAcross(s, r, q, w, e);
  }

  /** A segment ends at the first separator and the next starts after it. */
  lemma SegmentsAcross(s: string, r: nat, q: nat, w: nat, e: nat)
    requires r <= q <= w < e <= |s| && IsSeparator(s[w])
    requires forall j :: q <= j < w ==> !IsSeparator(s[j])
    requires forall j :: w + 1 <= j < e ==> !IsSeparator(s[j])
    ensures SegmentsFrom(s, r, q) == [s[r..w]] + SegmentsFrom(s, w + 1, e)
  {
    SegmentsSkip(s, r, q, w);
    SegmentsSkip(s, w + 1, w + 1, e);
  }

  /** The split's parts are the plain segments up to trimming: splitting on the
      pattern only moves the white space around each separator out of the parts. */
  lemma SplitSegments(s: string)
    ensures |Split(s)| == |Segments(s)|
    ensures forall k :: 0 <= k < |Split(s)| ==> Trim(Split(s)[k]) == Trim(Segments(s)[k])
  {
    SplitFromSegments(s, 0, 0, 0);
    TrimAllAt(Split(s));
    TrimAllAt(Segments(s));
  }

  /** A part strictly between two others is its segment trimmed. */
  lemma InnerPartsTrimmed(s: string)
    ensures |Split(s)| == |Segments(s)|
    ensures forall k :: 0 < k < |Split(s)| - 1 ==> Split(s)[k] == Trim(Segments(s)[k])
  {
    SplitSegments(s);
    SplitShape(s);
    forall k | 0 < k < |Split(s)| - 1 ensures Split(s)[k] == Trim(Segments(s)[k]) {
      var part := Split(s)[k];
      if part != [] { TrimKeepsTrimmed(part); }
    }
  }

  /** There is one segment more than there are separator characters. */
  lemma SegmentsCount(s: string)
    ensures |Segments(s)| == 1 + SeparatorCount(s)
  {
    SplitSegments(s);
    SplitCount(s);
  }

  /** The `.trim()` calls on the parts only matter at the outer ends: a part strictly
      between two others is trimmed already. */
  lemma InnerTrimNoOp(s: string)
    ensures forall k :: 0 < k < |Split(s)| - 1 ==> Trim(Split(s)[k]) == Split(s)[k]
  {
    InnerPartsTrimmed(s);
    forall k | 0 < k < |Split(s)| - 1 ensures Trim(Split(s)[k]) == Split(s)[k] {
      TrimIdempotent(Segments(s)[k]);
    }
  }

  // ---------------------------------------------------------------------------
  // Spec rows

  /** A table row's spec: three or more cells give (label, left, right) =
      (cell 1, cell 0, cell 2), two give (cell 0, cell 1, ""), fewer give none. */
  function TableRow(cells: seq<string>): (r: Option<SpecRow>)
  {
    if |cells| >= 3 then Some(SpecRow(Trim(cells[1]), Trim(cells[0]), Trim(cells[2])))
    else if |cells| == 2 then Some(SpecRow(Trim(cells[0]), Trim(cells[1]), ""))
    else None
  }

  /** A list item's spec: the first three parts, trimmed, when there are at least three. */
  function ListRow(text: string): (r: Option<SpecRow>)
  {
    var parts := Split(text);
    if |parts| >= 3 then Some(SpecRow(Trim(parts[0]), Trim(parts[1]), Trim(parts[2]))) else None
  }

  /** A `comparisonItems` entry's spec: kept when present with a non-empty field;
      missing fields become "". */
  function ItemRow(it: Option<Item>): (r: Option<SpecRow>)
  {
    match it
    case Some(i) =>
      if Truthy(i.labelText) || Truthy(i.leftValue) || Truthy(i.rightValue) then
        Some(SpecRow(FirstTruthy([i.labelText], ""), FirstTruthy([i.leftValue], ""), FirstTruthy([i.rightValue], "")))
      else None
    case None => None
  }

  /** The rows read from the DOM: the table's if there is a table, else the list items'. */
  function DomRows(b: Block): seq<SpecRow>
  {
    if b.table.Some? then FilterMap(TableRow, b.table.value) else FilterMap(ListRow, b.listItems)
  }

  /** The rows read from the model's `comparisonItems`, if that is an array. */
  function ItemRows(b: Block): seq<SpecRow>
  {
    match ModelOf(b.script).comparisonItems
    case Some(items) => FilterMap(ItemRow, items)
    case None => []
  }

  /** All spec rows: the DOM rows, then the model's items appended after them. */
  function SpecRows(b: Block): (r: seq<SpecRow>)
    ensures |r| == |DomRows(b)| + |ItemRows(b)|
    ensures r[..|DomRows(b)|] == DomRows(b)
    ensures r[|DomRows(b)|..] == ItemRows(b)
  {
    DomRows(b) + ItemRows(b)
  }

  lemma TableRowCases(cells: seq<string>)
    ensures TableRow(cells).Some? <==> |cells| >= 2
    ensures |cells| >= 3 ==> TableRow(cells).value == SpecRow(Trim(cells[1]), Trim(cells[0]), Trim(cells[2]))
    ensures |cells| == 2 ==> TableRow(cells).value == SpecRow(Trim(cells[0]), Trim(cells[1]), "")
  {
  }

  /** A list item yields a row exactly when it holds at least two separator characters. */
  lemma ListRowIff(text: string)
    ensures ListRow(text).Some? <==> SeparatorCount(text) >= 2
  {
    SplitCount(text);
  }

  /** An item is kept iff it is present with a non-empty field; its fields are the
      item's strings, with "" for the missing ones. */
  lemma ItemRowCases(it: Option<Item>)
    ensures ItemRow(it).Some? <==> it.Some? && (Truthy(it.value.labelText) || Truthy(it.value.leftValue) || Truthy(it.value.rightValue))
    ensures ItemRow(it).Some? ==> ItemRow(it).value == SpecRow(it.value.labelText.GetOr(""), it.value.leftValue.GetOr(""), it.value.rightValue.GetOr(""))
  {
    if it.Some? {
      var i := it.value;
      FirstTruthySingle(i.labelText, "");
      FirstTruthySingle(i.leftValue, "");
      FirstTruthySingle(i.rightValue, "");
    }
  }

  /** A list item's spec read off the plain segments: it exists iff the item has at
      least three segments, and its fields are the first three segments, trimmed. */
  lemma ListRowSegments(text: string)
    ensures ListRow(text).Some? <==> |Segments(text)| >= 3
    ensures ListRow(text).Some? ==>
      ListRow(text).value == SpecRow(Trim(Segments(text)[0]), Trim(Segments(text)[1]), Trim(Segments(text)[2]))
  {
    SplitSegments(text);
  }

  /** List items are consulted only when there is no table. */
  lemma TableShadowsList(b: Block, items: seq<string>)
    requires b.table.Some?
    ensures SpecRows(b.(listItems := items)) == SpecRows(b)
  {
  }

  /** The number of spec rows is the number of table rows with at least two cells
      (or, without a table, of list items with at least two separators) plus the
      number of kept items; each DOM row comes from a kept source row, in source order. */
  lemma SpecCount(b: Block)
    ensures b.table.Some? ==>
      && |DomRows(b)| == |Kept(TableRow, b.table.value)|
      && (forall i :: 0 <= i < |b.table.value| ==> (i in Kept(TableRow, b.table.value) <==> |b.table.value[i]| >= 2))
    ensures b.table.None? ==>
      && |DomRows(b)| == |Kept(ListRow, b.listItems)|
      && (forall i :: 0 <= i < |b.listItems| ==> (i in Kept(ListRow, b.listItems) <==> SeparatorCount(b.listItems[i]) >= 2))
    ensures ModelOf(b.script).comparisonItems.None? ==> |ItemRows(b)| == 0
    ensures ModelOf(b.script).comparisonItems.Some? ==>
      var items := ModelOf(b.script).comparisonItems.value;
      && |ItemRows(b)| == |Kept(ItemRow, items)|
      && forall i :: 0 <= i < |items| ==>
           (i in Kept(ItemRow, items) <==>
              items[i].Some? && (Truthy(items[i].value.labelText) || Truthy(items[i].value.leftValue) || Truthy(items[i].value.rightValue)))
    ensures |SpecRows(b)| == |DomRows(b)| + |ItemRows(b)|
  {
    if ModelOf(b.script).comparisonItems.Some? {
      var items := ModelOf(b.script).comparisonItems.value;
      FilterMapKept(ItemRow, items);
      forall i | 0 <= i < |items|
        ensures i in Kept(ItemRow, items) <==>
          items[i].Some? && (Truthy(items[i].value.labelText) || Truthy(items[i].value.leftValue) || Truthy(items[i].value.rightValue))
      {
        KeptOnlyAccepted(ItemRow, items, i);
        ItemRowCases(items[i]);
      }
    }
    if b.table.Some? {
      var rows := b.table.value;
      FilterMapKept(TableRow, rows);
      forall i | 0 <= i < |rows| ensures i in Kept(TableRow, rows) <==> |rows[i]| >= 2 {
        KeptOnlyAccepted(TableRow, rows, i);
        TableRowCases(rows[i]);
      }
    } else {
      FilterMapKept(ListRow, b.listItems);
      forall i | 0 <= i < |b.listItems| ensures i in Kept(ListRow, b.listItems) <==> SeparatorCount(b.listItems[i]) >= 2 {
        KeptOnlyAccepted(ListRow, b.listItems, i);
        ListRowIff(b.listItems[i]);
      }
    }
  }

  // ---------------------------------------------------------------------------
  // The block

  /** A table row's spec read off its cells trimmed in advance. */
  lemma TableRowOfTrimmed(row: seq<string>, cells: seq<string>)
    requires |cells| == |row| && forall k :: 0 <= k < |row| ==> cells[k] == Trim(row[k])
    ensures |cells| >= 3 ==> TableRow(row) == Some(SpecRow(cells[1], cells[0], cells[2]))
    ensures |cells| == 2 ==> TableRow(row) == Some(SpecRow(cells[0], cells[1], ""))
    ensures |cells| < 2 ==> TableRow(row) == None
  {
  }

  /** Visits the table rows in order, pushing the spec of each row of two or more cells. */
  method TableSpecs(rows: seq<seq<string>>) returns (specs: seq<SpecRow>)
    ensures specs == FilterMap(TableRow, rows)
  {
    specs := [];
    for i := 0 to |rows|
      invariant specs == FilterMap(TableRow, rows[..i])
    {
      var cells := seq(|rows[i]|, k requires 0 <= k < |rows[i]| => Trim(rows[i][k]));
      TableRowOfTrimmed(rows[i], cells);
      if |cells| >= 3 {
        specs := specs + [SpecRow(cells[1], cells[0], cells[2])];
      } else if |cells| == 2 {
        specs := specs + [SpecRow(cells[0], cells[1], "")];
      }
      FilterMapSnoc(TableRow, rows, i);
    }
    assert rows[..|rows|] == rows;
  }

  /** Visits the list items in order, pushing the spec of each item that splits into three or more parts. */
  method ListSpecs(lis: seq<string>) returns (specs: seq<SpecRow>)
    ensures specs == FilterMap(ListRow, lis)
  {
    specs := [];
    for i := 0 to |lis|
      invariant specs == FilterMap(ListRow, lis[..i])
    {
      var parts := Split(lis[i]);
      if |parts| >= 3 {
        specs := specs + [SpecRow(Trim(parts[0]), Trim(parts[1]), Trim(parts[2]))];
      }
      FilterMapSnoc(ListRow, lis, i);
    }
    assert lis[..|lis|] == lis;
  }

  /** Visits the model's items in order, pushing each kept one after `specs`. */
  method AppendItems(specs: seq<SpecRow>, items: seq<Option<Item>>) returns (out: seq<SpecRow>)
    ensures out == specs + FilterMap(ItemRow, items)
  {
    out := specs;
    for i := 0 to |items|
      invariant out == specs + FilterMap(ItemRow, items[..i])
    {
      var it := items[i];
      if it.Some? && (Truthy(it.value.labelText) || Truthy(it.value.leftValue) || Truthy(it.value.rightValue)) {
        out := out + [SpecRow(FirstTruthy([it.value.labelText], ""), FirstTruthy([it.value.leftValue], ""), FirstTruthy([it.value.rightValue], ""))];
      }
      FilterMapSnoc(ItemRow, items, i);
    }
    assert items[..|items|] == items;
  }

  /** Resolves the block: the fallback chains for the scalar fields, and the spec
      rows collected from the table (or, without one, the list items) and then the
      model's items. */
  method Decorate(b: Block) returns (v: View)
    ensures v.title == Title(b) && v.description == (if Description(b) != "" then Some(Description(b)) else None)
    ensures v.leftImage == LeftImage(b) && v.rightImage == RightImage(b)
    ensures v.leftTitle == LeftTitle(b) && v.rightTitle == RightTitle(b)
    ensures v.specs == SpecRows(b)
  {
    var model := ModelOf(b.script);
    var specs: seq<SpecRow>;
    if b.table.Some? {
      specs := TableSpecs(b.table.value);
    } else {
      specs := ListSpecs(b.listItems);
    }
    if model.comparisonItems.Some? {
      specs := AppendItems(specs, model.comparisonItems.value);
    }
    var description := Description(b);
    v := View(Title(b), LeftImage(b), LeftTitle(b), RightTitle(b),
              if description != "" then Some(description) else None,
              specs, RightImage(b));
  }
}

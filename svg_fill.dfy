/**
 The colour rewrite applied to an SVG document before it is rendered as a
 sidebar icon (`load_svg_icon_with_color`). Two regular-expression
 substitutions run one after the other: first every `fill="X"`, then every
 `fill='X'`, is replaced by `fill="<color>"`, except that an attribute whose
 value is exactly `none` is left as it was.

 `SubFill` models one substitution the way a left-to-right, non-overlapping
 regex scan performs it: at each position either the pattern
 `fill=<q>[^<q>]*<q>` matches (and is replaced, scanning resumes after the
 match) or one character is copied.
 */
module SvgFill {
  import opened Wrappers
  import opened Text

  /** The literal that opens an attribute quoted with `q`. */
  function Opening(q: char): (r: string)
    ensures |r| == 6 && r[5] == q
  {
    "fill=" + [q]
  }

  /** The pattern `fill=<q>[^<q>]*<q>` matches at the start of `s`. */
  predicate MatchAt(s: string, q: char) {
    |s| >= 6 && s[..6] == Opening(q) && q in s[6..]
  }

  /** The attribute written back for value `v`. */
  function Replacement(v: string, q: char, color: string): string {
    if v == "none" then Opening(q) + v + [q] else "fill=\"" + color + "\""
  }

  /** The value of the attribute that starts `s`. */
  function AttributeValue(s: string, q: char): string
    requires MatchAt(s, q)
  {
    s[6..6 + IndexOf(s[6..], q)]
  }

  /** The text after the attribute that starts `s`. */
  function AfterAttribute(s: string, q: char): (r: string)
    requires MatchAt(s, q)
    ensures |r| < |s|
  {
    s[6 + IndexOf(s[6..], q) + 1..]
  }

  /** One `re.sub` pass over `s` for attributes quoted with `q`. */
  function SubFill(s: string, q: char, color: string): string
    decreases |s|
  {
    if s == [] then []
    else if MatchAt(s, q) then
      Replacement(AttributeValue(s, q), q, color) + SubFill(AfterAttribute(s, q), q, color)
    else [s[0]] + SubFill(s[1..], q, color)
  }

  /** Both passes, double quotes first, as the icon loader runs them. */
  function ReplaceFills(svg: string, color: string): string {
    SubFill(SubFill(svg, '"', color), '\'', color)
  }

  /**
   The icon loader: a file that does not exist gives the blank icon
   (`None`); otherwise its text goes through both passes.
   */
  function LoadSvgWithColor(path: string, files: map<string, string>, color: string): (svg: Option<string>)
    ensures svg.None? <==> path !in files
    ensures path in files ==> svg == Some(ReplaceFills(files[path], color))
  {
    if path !in files then None else Some(ReplaceFills(files[path], color))
  }

  // ---------------------------------------------------------------------
  // An independent description of what one pass does: cut the document
  // into single characters and whole attributes, then rewrite only the
  // attributes.

  datatype Piece = Char(c: char) | Attr(value: string)

  /** The document text that a sequence of pieces spells. */
  function Source(ps: seq<Piece>, q: char): string {
    if ps == [] then []
    else
      (match ps[0]
       case Char(c) => [c]
       case Attr(v) => Opening(q) + v + [q]) + Source(ps[1..], q)
  }

  /** The same pieces with every attribute other than `none` recoloured. */
  function Rewrite(ps: seq<Piece>, q: char, color: string): string {
    if ps == [] then []
    else
      (match ps[0]
       case Char(c) => [c]
       case Attr(v) => Replacement(v, q, color)) + Rewrite(ps[1..], q, color)
  }

  /**
   The cut a scan from the left would make: no character piece stands
   where an attribute starts, and no attribute value contains the quote.
   */
  ghost predicate Scanned(ps: seq<Piece>, q: char) {
    ps != [] ==>
      && (ps[0].Char? ==> !MatchAt(Source(ps, q), q))
      && (ps[0].Attr? ==> q !in ps[0].value)
      && Scanned(ps[1..], q)
  }

  /** The first quote after an attribute's opening literal closes it. */
  lemma AttributeCloses(v: string, rest: string, q: char)
    requires q !in v
    ensures MatchAt(Opening(q) + v + [q] + rest, q)
    ensures AttributeValue(Opening(q) + v + [q] + rest, q) == v
    ensures AfterAttribute(Opening(q) + v + [q] + rest, q) == rest
  {
    var s := Opening(q) + v + [q] + rest;
    assert s[..6] == Opening(q);
    assert s[6..] == v + [q] + rest;
    assert s[6..][|v|] == q;
    var k := IndexOf(s[6..], q);
    assert k == |v|;
    assert s[6..6 + |v|] == v;
    assert s[6 + |v| + 1..] == rest;
  }

  /**
   Over a scanned cut, one pass recolours exactly the attributes whose
   value is not `none` and copies every other character unchanged.
   */
  lemma {:induction false} SubFillRewritesAttributes(ps: seq<Piece>, q: char, color: string)
    requires Scanned(ps, q)
    ensures SubFill(Source(ps, q), q, color) == Rewrite(ps, q, color)
  {
    if ps != [] {
      SubFillRewritesAttributes(ps[1..], q, color);
      var rest := Source(ps[1..], q);
      match ps[0]
      case Char(c) =>
        assert Source(ps, q) == [c] + rest;
        assert ([c] + rest)[1..] == rest;
      case Attr(v) =>
        assert Source(ps, q) == Opening(q) + v + [q] + rest;
        AttributeCloses(v, rest, q);
    }
  }

  /** A scanned cut stays scanned when a piece that fits its place is put in front. */
  lemma ScannedCons(p: Piece, rest: seq<Piece>, q: char)
    requires Scanned(rest, q)
    requires p.Char? ==> !MatchAt(Source([p] + rest, q), q)
    requires p.Attr? ==> q !in p.value
    ensures Scanned([p] + rest, q)
  {
    assert ([p] + rest)[1..] == rest;
  }

  /** The text a piece put in front of others spells. */
  lemma SourceCons(p: Piece, rest: seq<Piece>, q: char)
    ensures Source([p] + rest, q) ==
            (match p case Char(c) => [c] case Attr(v) => Opening(q) + v + [q]) + Source(rest, q)
  {
    assert ([p] + rest)[1..] == rest;
  }

  /** The cut a left-to-right scan makes of `s`. */
  function Scan(s: string, q: char): seq<Piece>
    decreases |s|
  {
    if s == [] then []
    else if MatchAt(s, q) then
      [Attr(AttributeValue(s, q))] + Scan(AfterAttribute(s, q), q)
    else [Char(s[0])] + Scan(s[1..], q)
  }

  /** Cutting a string at `i` and around position `j` and gluing the pieces back gives it again. */
  lemma CutAround(s: string, i: nat, j: nat)
    requires i <= j < |s|
    ensures s == s[..i] + s[i..j] + [s[j]] + s[j + 1..]
  {
    assert s[..j] == s[..i] + s[i..j];
    assert s == s[..j] + [s[j]] + s[j + 1..];
  }

  /** A document that starts with an attribute is that attribute followed by the rest. */
  lemma SplitAtAttribute(s: string, q: char)
    requires MatchAt(s, q)
    ensures q !in AttributeValue(s, q)
    ensures s == Opening(q) + AttributeValue(s, q) + [q] + AfterAttribute(s, q)
  {
    var k := IndexOf(s[6..], q);
    assert s[6..][..k] == s[6..6 + k];
    assert s[6 + k] == s[6..][k];
    CutAround(s, 6, 6 + k);
  }

  /** The step of `ScanIsScanned` where an attribute starts the document. */
  lemma ScanAttributeStep(s: string, q: char)
    requires MatchAt(s, q)
    requires Source(Scan(AfterAttribute(s, q), q), q) == AfterAttribute(s, q)
    requires Scanned(Scan(AfterAttribute(s, q), q), q)
    ensures Source(Scan(s, q), q) == s
    ensures Scanned(Scan(s, q), q)
  {
    var v, tail := AttributeValue(s, q), AfterAttribute(s, q);
    var rest := Scan(tail, q);
    assert Scan(s, q) == [Attr(v)] + rest;
    SplitAtAttribute(s, q);
    SourceCons(Attr(v), rest, q);
    ScannedCons(Attr(v), rest, q);
  }

  /** The step of `ScanIsScanned` where a plain character starts the document. */
  lemma ScanCharStep(s: string, q: char)
    requires s != [] && !MatchAt(s, q)
    requires Source(Scan(s[1..], q), q) == s[1..]
    requires Scanned(Scan(s[1..], q), q)
    ensures Source(Scan(s, q), q) == s
    ensures Scanned(Scan(s, q), q)
  {
    var rest := Scan(s[1..], q);
    assert Scan(s, q) == [Char(s[0])] + rest;
    SourceCons(Char(s[0]), rest, q);
    assert Source([Char(s[0])] + rest, q) == s by {
      assert s == [s[0]] + s[1..];
    }
    ScannedCons(Char(s[0]), rest, q);
  }

  /** The scan's cut spells the document again, and it is a scanned cut. */
  lemma {:induction false} ScanIsScanned(s: string, q: char)
    ensures Source(Scan(s, q), q) == s
    ensures Scanned(Scan(s, q), q)
    decreases |s|
  {
    if s != [] {
      if MatchAt(s, q) {
        ScanIsScanned(AfterAttribute(s, q), q);
        ScanAttributeStep(s, q);
      } else {
        ScanIsScanned(s[1..], q);
        ScanCharStep(s, q);
      }
    }
  }

  /**
   Every document has a scanned cut, and one pass over it equals the
   rewrite of that cut: attributes other than `none` become
   `fill="<color>"`, everything else is kept.
   */
  lemma SubFillIsRewrite(s: string, q: char, color: string)
    ensures Source(Scan(s, q), q) == s
    ensures SubFill(s, q, color) == Rewrite(Scan(s, q), q, color)
  {
    ScanIsScanned(s, q);
    SubFillRewritesAttributes(Scan(s, q), q, color);
  }

  /** Text in which the pattern never matches comes through a pass unchanged. */
  lemma {:induction false} SubFillKeepsPlainText(s: string, q: char, color: string)
    requires forall i :: 0 <= i < |s| ==> !MatchAt(s[i..], q)
    ensures SubFill(s, q, color) == s
  {
    if s != [] {
      assert s[0..] == s;
      forall i | 0 <= i < |s[1..]| ensures !MatchAt(s[1..][i..], q) {
        assert s[1..][i..] == s[i + 1..];
      }
      SubFillKeepsPlainText(s[1..], q, color);
    }
  }
}

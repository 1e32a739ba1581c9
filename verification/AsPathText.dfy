/** AS paths as text: `aspath_make_str_count` and `aspath_str2aspath`. */
module AsPathText {
  import opened Asns
  import opened AsPaths
  import opened Decimals
  import opened Options

  // ---------------------------------------------------------------------
  // Printing

  function Separator(kind: SegKind): char {
    if IsSet(kind) then ',' else ' '
  }

  /** `aspath_delimiter_char`; an AS_SEQUENCE is printed without delimiters. */
  function Opening(kind: SegKind): string {
    match kind
    case AsSet => "{"
    case ConfedSet => "["
    case ConfedSequence => "("
    case AsSequence => ""
  }

  function Closing(kind: SegKind): string {
    match kind
    case AsSet => "}"
    case ConfedSet => "]"
    case ConfedSequence => ")"
    case AsSequence => ""
  }

  function AsnsText(asns: seq<Asn>, sep: char): string {
    if asns == [] then ""
    else if |asns| == 1 then Dec(asns[0])
    else Dec(asns[0]) + [sep] + AsnsText(asns[1..], sep)
  }

  function SegmentText(s: Segment): string {
    Opening(s.kind) + AsnsText(s.asns, Separator(s.kind)) + Closing(s.kind)
  }

  function Print(p: Path): string {
    if p == [] then "" else if |p| == 1 then SegmentText(p[0]) else SegmentText(p[0]) + " " + Print(p[1..])
  }

  // ---------------------------------------------------------------------
  // Tokens

  datatype Token = AsVal(asn: Asn) | Open(kind: SegKind) | Close | Unknown

  predicate IsSeparator(c: char) {
    IsSpace(c) || c == ','
  }

  function Skip(s: string): (t: string)
    ensures |t| <= |s|
    ensures t != [] ==> !IsSeparator(t[0])
  {
    if s != [] && IsSeparator(s[0]) then Skip(s[1..]) else s
  }

  /** The length of the digits a text starts with. */
  function DigitsLength(s: string): (n: nat)
    ensures n <= |s|
    ensures forall i :: 0 <= i < n ==> IsDigit(s[i])
    ensures n < |s| ==> !IsDigit(s[n])
  {
    if s == [] || !IsDigit(s[0]) then 0 else 1 + DigitsLength(s[1..])
  }

  function Delimiter(c: char): Option<Token> {
    match c
    case '{' => Some(Open(AsSet))
    case '(' => Some(Open(ConfedSequence))
    case '[' => Some(Open(ConfedSet))
    case '}' => Some(Close)
    case ')' => Some(Close)
    case ']' => Some(Close)
    case _ => None
  }

  /** `aspath_gettoken`: every token but an unknown one takes at least one character. */
  function NextToken(s: string): (r: Option<(Token, string)>)
    ensures r.Some? && r.value.0 != Unknown ==> |r.value.1| < |s|
    ensures r.None? <==> forall i :: 0 <= i < |s| ==> IsSeparator(s[i])
  {
    SkipAll(s);
    var t := Skip(s);
    if t == [] then None
    else if Delimiter(t[0]).Some? then Some((Delimiter(t[0]).value, t[1..]))
    else if IsDigit(t[0]) then
      var n := DigitsLength(t);
      Some((AsVal(Read(0, t[..n]) % 0x1_0000_0000), t[n..]))
    else Some((Unknown, t))
  }

  lemma {:induction false} SkipAll(s: string)
    ensures Skip(s) == [] <==> forall i :: 0 <= i < |s| ==> IsSeparator(s[i])
  {
    if s != [] && IsSeparator(s[0]) {
      SkipAll(s[1..]);
      assert s == [s[0]] + s[1..];
    }
  }

  /** The tokens of a text, up to the first unknown one. */
  function Lex(s: string): seq<Token>
    decreases |s|
  {
    match NextToken(s)
    case None => []
    case Some((t, rest)) => if t == Unknown then [Unknown] else [t] + Lex(rest)
  }

  // ---------------------------------------------------------------------
  // Building the path

  /** Segments so far, and whether the next AS number starts a new AS_SEQUENCE. */
  datatype Build = Build(segs: Path, needtype: bool)

  /** `aspath_as_add`: to the last segment, if there is one. */
  function AddLast(p: Path, a: Asn): Path {
    if p == [] then p
    else p[|p| - 1 := p[|p| - 1].(asns := p[|p| - 1].asns + [a])]
  }

  function Take(b: Build, t: Token): Option<Build> {
    match t
    case AsVal(a) => Some(Build(AddLast(if b.needtype then b.segs + [Segment(AsSequence, [])] else b.segs, a), false))
    case Open(kind) => Some(Build(b.segs + [Segment(kind, [])], false))
    case Close => Some(b.(needtype := true))
    case Unknown => None
  }

  function TakeAll(b: Build, ts: seq<Token>): Option<Build>
    decreases |ts|
  {
    if ts == [] then Some(b)
    else match Take(b, ts[0])
      case None => None
      case Some(c) => TakeAll(c, ts[1..])
  }

  /** `aspath_str2aspath`. */
  function ParseText(s: string): Option<Path> {
    match TakeAll(Build([], true), Lex(s))
    case None => None
    case Some(b) => Some(b.segs)
  }

  // ---------------------------------------------------------------------
  // Lexing printed text

  lemma LexSeparator(c: char, s: string)
    requires IsSeparator(c)
    ensures Lex([c] + s) == Lex(s)
  {
    assert ([c] + s)[1..] == s;
    assert Skip([c] + s) == Skip(s);
  }

  lemma LexDelimiter(c: char, s: string)
    requires Delimiter(c).Some?
    ensures Lex([c] + s) == [Delimiter(c).value] + Lex(s)
  {
    assert ([c] + s)[1..] == s;
    assert Skip([c] + s) == [c] + s;
  }

  predicate EndsNumber(s: string) {
    s == [] || !IsDigit(s[0])
  }

  lemma {:induction false} DigitsLengthIs(d: string, s: string)
    requires (forall i :: 0 <= i < |d| ==> IsDigit(d[i])) && EndsNumber(s)
    ensures DigitsLength(d + s) == |d|
  {
    if d == [] {
      assert d + s == s;
    } else {
      assert (d + s)[0] == d[0] && (d + s)[1..] == d[1..] + s;
      DigitsLengthIs(d[1..], s);
    }
  }

  lemma LexNumber(a: Asn, s: string)
    requires EndsNumber(s)
    ensures Lex(Dec(a) + s) == [AsVal(a)] + Lex(s)
  {
    hide Dec, Read, NextToken, Lex, DigitsLength;
    var d := Dec(a);
    DigitsLengthIs(d, s);
    ReadDec(a);
    NextNumber(d, s);
    assert NextToken(d + s) == Some((AsVal(a), s));
    LexStep(d + s, AsVal(a), s);
  }

  lemma LexStep(s: string, t: Token, rest: string)
    requires NextToken(s) == Some((t, rest)) && t != Unknown
    ensures Lex(s) == [t] + Lex(rest)
  {
    hide NextToken;
  }

  lemma NextNumber(d: string, s: string)
    requires d != [] && forall i :: 0 <= i < |d| ==> IsDigit(d[i])
    requires DigitsLength(d + s) == |d|
    ensures NextToken(d + s) == Some((AsVal(Read(0, d) % 0x1_0000_0000), s))
  {
    hide Read, DigitsLength;
    var t := d + s;
    assert t[0] == d[0] && IsDigit(t[0]);
    assert Skip(t) == t;
    assert t[..|d|] == d && t[|d|..] == s;
  }

  function AsnTokens(asns: seq<Asn>): seq<Token> {
    if asns == [] then [] else [AsVal(asns[0])] + AsnTokens(asns[1..])
  }

  function SegmentTokens(s: Segment): seq<Token> {
    if s.kind == AsSequence then AsnTokens(s.asns) else [Open(s.kind)] + AsnTokens(s.asns) + [Close]
  }

  function PathTokens(p: Path): seq<Token> {
    if p == [] then [] else SegmentTokens(p[0]) + PathTokens(p[1..])
  }

  lemma {:induction false} LexAsns(asns: seq<Asn>, sep: char, s: string)
    requires EndsNumber(s) && IsSeparator(sep)
    ensures Lex(AsnsText(asns, sep) + s) == AsnTokens(asns) + Lex(s)
  {
    hide Lex, Dec;
    if asns == [] {
      assert AsnsText(asns, sep) + s == s;
    } else if |asns| == 1 {
      LexNumber(asns[0], s);
      assert AsnTokens(asns[1..]) == [];
    } else {
      var rest := AsnsText(asns[1..], sep) + s;
      assert AsnsText(asns, sep) + s == Dec(asns[0]) + ([sep] + rest);
      LexNumber(asns[0], [sep] + rest);
      LexSeparator(sep, rest);
      LexAsns(asns[1..], sep, s);
      assert [AsVal(asns[0])] + (AsnTokens(asns[1..]) + Lex(s)) == AsnTokens(asns) + Lex(s);
    }
  }

  lemma LexSegment(g: Segment, s: string)
    requires EndsNumber(s)
    ensures Lex(SegmentText(g) + s) == SegmentTokens(g) + Lex(s)
  {
    hide Lex, AsnsText, AsnTokens;
    var body := AsnsText(g.asns, Separator(g.kind));
    if g.kind == AsSequence {
      assert SegmentText(g) + s == body + s;
      LexAsns(g.asns, ' ', s);
    } else {
      var o, c := Opening(g.kind)[0], Closing(g.kind)[0];
      assert SegmentText(g) + s == [o] + (body + ([c] + s));
      LexDelimiter(o, body + ([c] + s));
      LexAsns(g.asns, Separator(g.kind), [c] + s);
      LexDelimiter(c, s);
      assert [Open(g.kind)] + (AsnTokens(g.asns) + ([Close] + Lex(s))) == SegmentTokens(g) + Lex(s);
    }
  }

  /** The tokens of a printed path are those of its segments. */
  lemma {:induction false} LexPrint(p: Path)
    ensures Lex(Print(p)) == PathTokens(p)
  {
    hide Lex, SegmentText, SegmentTokens;
    if p == [] {
      LexEmpty();
    } else if |p| == 1 {
      LexSegment(p[0], []);
      LexEmpty();
      assert SegmentText(p[0]) + [] == SegmentText(p[0]);
      assert PathTokens(p[1..]) == [];
    } else {
      var rest := Print(p[1..]);
      assert Print(p) == SegmentText(p[0]) + ([' '] + rest);
      LexSegment(p[0], [' '] + rest);
      LexSeparator(' ', rest);
      LexPrint(p[1..]);
    }
  }

  lemma LexEmpty()
    ensures Lex([]) == []
  {
  }

  // ---------------------------------------------------------------------
  // Building from printed tokens

  lemma {:induction false} TakeAllConcat(b: Build, x: seq<Token>, y: seq<Token>)
    ensures TakeAll(b, x + y) ==
      match TakeAll(b, x) { case None => None case Some(c) => TakeAll(c, y) }
    decreases |x|
  {
    if x == [] {
      assert x + y == y;
    } else {
      assert (x + y)[0] == x[0] && (x + y)[1..] == x[1..] + y;
      match Take(b, x[0])
      case None =>
      case Some(c) => TakeAllConcat(c, x[1..], y);
    }
  }

  lemma AddLastIs(segs: Path, last: Segment, a: Asn)
    ensures AddLast(segs + [last], a) == segs + [last.(asns := last.asns + [a])]
  {
  }

  /** AS numbers go to the last segment. */
  lemma {:induction false} TakeAsns(segs: Path, last: Segment, asns: seq<Asn>)
    ensures TakeAll(Build(segs + [last], false), AsnTokens(asns)) == Some(Build(segs + [last.(asns := last.asns + asns)], false))
    decreases |asns|
  {
    if asns == [] {
      assert last.asns + [] == last.asns;
    } else {
      var next := last.(asns := last.asns + [asns[0]]);
      AddLastIs(segs, last, asns[0]);
      TakeAsns(segs, next, asns[1..]);
      assert (last.asns + [asns[0]]) + asns[1..] == last.asns + asns;
      assert AsnTokens(asns)[1..] == AsnTokens(asns[1..]);
    }
  }

  /** The path that a text stands for: empty sequences vanish and adjacent ones are one. */
  function Coalesce(p: Path): Path {
    if p == [] then []
    else if p[0] == Segment(AsSequence, []) then Coalesce(p[1..])
    else Join(p[0], Coalesce(p[1..]))
  }

  /** Segments already built followed by a path; an unfinished sequence goes on. */
  function Glue(b: Build, q: Path): Path {
    if !b.needtype && b.segs != [] && q != [] && q[0].kind == AsSequence then
      var n := |b.segs| - 1;
      b.segs[..n] + [Segment(b.segs[n].kind, b.segs[n].asns + q[0].asns)] + q[1..]
    else
      b.segs + q
  }

  /** Between segments only a sequence is unfinished. */
  ghost predicate AtSegment(b: Build) {
    !b.needtype ==> b.segs != [] && b.segs[|b.segs| - 1].kind == AsSequence
  }

  lemma TakeSequence(b: Build, asns: seq<Asn>)
    requires AtSegment(b) && asns != []
    ensures
      var segs := Glue(b, [Segment(AsSequence, asns)]);
      TakeAll(b, AsnTokens(asns)) == Some(Build(segs, false))
  {
    hide TakeAll, AsnTokens;
    GlueOne(b, asns);
    hide Glue;
    if b.needtype {
      TakeNew(b, asns);
    } else {
      var n := |b.segs| - 1;
      assert b.segs == b.segs[..n] + [b.segs[n]];
      TakeAsns(b.segs[..n], b.segs[n], asns);
    }
  }

  lemma GlueOne(b: Build, asns: seq<Asn>)
    requires AtSegment(b)
    ensures
      var n := |b.segs| - 1;
      Glue(b, [Segment(AsSequence, asns)]) ==
        if b.needtype then b.segs + [Segment(AsSequence, asns)]
        else b.segs[..n] + [b.segs[n].(asns := b.segs[n].asns + asns)]
  {
    assert [Segment(AsSequence, asns)][1..] == [];
  }

  lemma TakeNew(b: Build, asns: seq<Asn>)
    requires b.needtype && asns != []
    ensures TakeAll(b, AsnTokens(asns)) == Some(Build(b.segs + [Segment(AsSequence, asns)], false))
  {
    hide TakeAll;
    var last := Segment(AsSequence, [asns[0]]);
    AddLastIs(b.segs, Segment(AsSequence, []), asns[0]);
    assert [] + [asns[0]] == [asns[0]];
    TakeAllCons(b, AsVal(asns[0]), AsnTokens(asns[1..]), Build(b.segs + [last], false));
    hide AddLast;
    TakeAsns(b.segs, last, asns[1..]);
    assert [asns[0]] + asns[1..] == asns;
  }

  lemma TakeAllCons(b: Build, t: Token, ts: seq<Token>, c: Build)
    requires Take(b, t) == Some(c)
    ensures TakeAll(b, [t] + ts) == TakeAll(c, ts)
  {
    assert ([t] + ts)[1..] == ts;
  }

  lemma TakeDelimited(b: Build, g: Segment)
    requires g.kind != AsSequence
    ensures TakeAll(b, SegmentTokens(g)) == Some(Build(b.segs + [g], true))
  {
    var ts := AsnTokens(g.asns);
    assert SegmentTokens(g) == [Open(g.kind)] + (ts + [Close]);
    var c := Build(b.segs + [Segment(g.kind, [])], false);
    assert Take(b, Open(g.kind)) == Some(c);
    TakeAllConcat(b, [Open(g.kind)], ts + [Close]);
    assert TakeAll(b, [Open(g.kind)]) == Some(c) by {
      assert [Open(g.kind)][1..] == [];
    }
    TakeAllConcat(c, ts, [Close]);
    TakeAsns(b.segs, Segment(g.kind, []), g.asns);
    assert [] + g.asns == g.asns;
    assert [Close][1..] == [];
  }

  lemma GlueSequence(b: Build, asns: seq<Asn>, q: Path)
    requires AtSegment(b) && asns != []
    ensures
      var h := Segment(AsSequence, asns);
      Glue(Build(Glue(b, [h]), false), q) == Glue(b, Join(h, q))
  {
    GlueOne(b, asns);
    var h := Segment(AsSequence, asns);
    var n := |b.segs| - 1;
    if b.needtype {
      GlueMore(b.segs, h, q);
      GlueNew(b.segs, h, q);
    } else {
      var pre, l := b.segs[..n], b.segs[n];
      assert b.segs == pre + [l];
      GlueMore(pre, l.(asns := l.asns + asns), q);
      GlueMore(pre, l, Join(h, q));
      hide Glue;
      GlueTwice(l, h, q);
    }
  }

  function More(last: Segment, q: Path): Path {
    if q != [] && q[0].kind == AsSequence then
      [last.(asns := last.asns + q[0].asns)] + q[1..]
    else [last] + q
  }

  lemma GlueMore(segs: Path, last: Segment, q: Path)
    ensures Glue(Build(segs + [last], false), q) == segs + More(last, q)
  {
    assert (segs + [last])[..|segs|] == segs;
  }

  lemma GlueNew(segs: Path, h: Segment, q: Path)
    requires h.kind == AsSequence
    ensures Glue(Build(segs, true), Join(h, q)) == segs + More(h, q)
  {
  }

  lemma GlueTwice(l: Segment, h: Segment, q: Path)
    requires h.kind == AsSequence
    ensures More(l.(asns := l.asns + h.asns), q) == More(l, Join(h, q))
  {
    if q != [] && q[0].kind == AsSequence {
      assert (l.asns + h.asns) + q[0].asns == l.asns + (h.asns + q[0].asns);
      assert Join(h, q)[1..] == q[1..];
    } else {
      assert Join(h, q)[1..] == q;
    }
  }

  lemma {:induction false} TakePath(b: Build, p: Path)
    requires AtSegment(b)
    ensures TakeAll(b, PathTokens(p)).Some? && TakeAll(b, PathTokens(p)).value.segs == Glue(b, Coalesce(p))
    decreases |p|
  {
    hide Take, Join;
    if p == [] {
      assert b.segs + [] == b.segs;
    } else {
      TakeAllConcat(b, SegmentTokens(p[0]), PathTokens(p[1..]));
      if p[0].kind != AsSequence {
        TakeDelimited(b, p[0]);
        TakePath(Build(b.segs + [p[0]], true), p[1..]);
        GlueDelimited(b, p[0], Coalesce(p[1..]));
      } else if p[0].asns == [] {
        TakePath(b, p[1..]);
      } else {
        TakeSequence(b, p[0].asns);
        var c := Build(Glue(b, [p[0]]), false);
        assert AtSegment(c);
        TakePath(c, p[1..]);
        GlueSequence(b, p[0].asns, Coalesce(p[1..]));
      }
    }
  }

  lemma GlueDelimited(b: Build, g: Segment, q: Path)
    requires g.kind != AsSequence
    ensures (b.segs + [g]) + q == Glue(b, Join(g, q))
  {
    assert Join(g, q) == [g] + q;
    assert ([g] + q)[0] == g;
  }

  /** Printing a path and parsing the text gives the path with its sequences run together. */
  lemma PrintParse(p: Path)
    ensures ParseText(Print(p)) == Some(Coalesce(p))
  {
    hide Lex, TakeAll, Print, PathTokens, Coalesce;
    LexPrint(p);
    TakePath(Build([], true), p);
    assert [] + Coalesce(p) == Coalesce(p);
  }

  // ---------------------------------------------------------------------
  // When the text gives the path back

  /** No AS_SEQUENCE is empty or next to another. */
  ghost predicate Legible(p: Path) {
    && (forall i :: 0 <= i < |p| ==> p[i] != Segment(AsSequence, []))
    && (forall i :: 0 <= i < |p| - 1 ==> !Packable(p[i], p[i + 1]))
  }

  lemma {:induction false} CoalesceLegible(p: Path)
    ensures Legible(Coalesce(p))
    decreases |p|
  {
    if p != [] {
      CoalesceLegible(p[1..]);
    }
  }

  lemma {:induction false} LegibleFixed(p: Path)
    requires Legible(p)
    ensures Coalesce(p) == p
  {
    if p != [] {
      assert Legible(p[1..]) by {
        assert forall i :: 0 <= i < |p| - 1 ==> p[1..][i] == p[i + 1];
      }
      LegibleFixed(p[1..]);
    }
  }

  /** The text of a path gives the path back exactly when no sequence is empty or next to another. */
  lemma TextRoundTrip(p: Path)
    ensures ParseText(Print(p)) == Some(p) <==> Legible(p)
  {
    hide Print, ParseText, Coalesce, Legible;
    PrintParse(p);
    CoalesceLegible(p);
    if Legible(p) {
      LegibleFixed(p);
    }
  }

  /** In particular for every normalised path. */
  lemma NormalTextRoundTrip(p: Path)
    requires Normal(p)
    ensures ParseText(Print(p)) == Some(p)
  {
    TextRoundTrip(p);
    hide ParseText, Print;
  }

  // ---------------------------------------------------------------------
  // In letters and figures

  /** Numbers in a row with a separator between them. */
  function Row(asns: seq<Asn>, sep: string): string {
    if asns == [] then "" else if |asns| == 1 then Dec(asns[0]) else Dec(asns[0]) + sep + Row(asns[1..], sep)
  }

  lemma {:induction false} RowIs(asns: seq<Asn>, sep: char)
    ensures AsnsText(asns, sep) == Row(asns, [sep])
  {
    hide Dec;
    if asns != [] {
      RowIs(asns[1..], sep);
    }
  }

  /**
    The text of one segment: numbers with spaces between them, and round brackets
    around a confederation sequence; with commas and curly or square brackets for a
    set and a confederation set.
   */
  lemma {:induction false} SegmentMeans(kind: SegKind, s: seq<Asn>)
    ensures Print([Segment(kind, s)]) ==
      match kind
      case AsSequence => Row(s, " ")
      case ConfedSequence => "(" + Row(s, " ") + ")"
      case AsSet => "{" + Row(s, ",") + "}"
      case ConfedSet => "[" + Row(s, ",") + "]"
  {
    hide Dec, Row, AsnsText;
    RowIs(s, ' ');
    RowIs(s, ',');
    assert "" + Row(s, " ") + "" == Row(s, " ");
  }

  /** Segments stand one behind the other with a space between them. */
  lemma {:induction false} PrintMeans(p: Path, q: Path)
    requires p != [] && q != []
    ensures Print(p + q) == Print(p) + " " + Print(q)
  {
    hide SegmentText;
    if |p| == 1 {
      assert (p + q)[0] == p[0] && (p + q)[1..] == q;
    } else {
      assert (p + q)[0] == p[0] && (p + q)[1..] == p[1..] + q;
      PrintMeans(p[1..], q);
    }
  }

  /** White space and commas separate tokens. */
  lemma {:induction false} SeparatorMeans(c: char)
    ensures IsSeparator(c) <==> c in {' ', ',', '\t', '\n', '\r'} || c as int in {11, 12}
  {
  }

  lemma {:induction false} BuildsIff(b: Build, ts: seq<Token>)
    ensures TakeAll(b, ts).Some? <==> Unknown !in ts
    decreases |ts|
  {
    if ts != [] {
      assert ts == [ts[0]] + ts[1..];
      if ts[0] != Unknown {
        BuildsIff(Take(b, ts[0]).value, ts[1..]);
      }
    }
  }

  /** A text is refused exactly when it holds an unknown token. */
  lemma {:induction false} ParsesIff(s: string)
    ensures ParseText(s).Some? <==> Unknown !in Lex(s)
  {
    hide Lex;
    BuildsIff(Build([], true), Lex(s));
  }
}

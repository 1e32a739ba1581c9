/** Communities as text: `set_community_string` and `community_str2com`. */
module CommunityText {
  import opened Asns
  import opened Decimals
  import opened Options
  import opened Sequences
  import opened Communities

  const COMMUNITY_INTERNET: CommunityVal := 0
  const COMMUNITY_NO_EXPORT: CommunityVal := 0xFFFFFF01
  const COMMUNITY_NO_ADVERTISE: CommunityVal := 0xFFFFFF02
  const COMMUNITY_LOCAL_AS: CommunityVal := 0xFFFFFF03
  const UINT16_MAX: nat := 65535

  // ---------------------------------------------------------------------
  // Printing

  /** The keyword of a well-known value. */
  function Keyword(v: CommunityVal): Option<string> {
    if v == COMMUNITY_INTERNET then Some("internet")
    else if v == COMMUNITY_NO_EXPORT then Some("no-export")
    else if v == COMMUNITY_NO_ADVERTISE then Some("no-advertise")
    else if v == COMMUNITY_LOCAL_AS then Some("local-AS")
    else None
  }

  function ValText(v: CommunityVal): string {
    if Keyword(v).Some? then Keyword(v).value
    else Dec(v / 0x1_0000) + [':'] + Dec(v % 0x1_0000)
  }

  function Print(s: seq<CommunityVal>): string {
    if s == [] then "" else if |s| == 1 then ValText(s[0]) else ValText(s[0]) + [' '] + Print(s[1..])
  }

  /** The room counted for one value, a separator included. */
  function Room(v: CommunityVal): nat {
    1 + if Keyword(v).Some? then |Keyword(v).value| else |"65536:65535"|
  }

  function BufferLength(s: seq<CommunityVal>): nat {
    if s == [] then 0 else Room(s[0]) + BufferLength(s[1..])
  }

  /** A value whose text takes all the room counted for it. */
  predicate FillsRoom(v: CommunityVal) {
    Keyword(v).Some? || (v / 0x1_0000 >= 10_000 && v % 0x1_0000 >= 10_000)
  }

  lemma ValTextLength(v: CommunityVal)
    ensures |ValText(v)| + 1 <= Room(v)
    ensures |ValText(v)| + 1 == Room(v) <==> FillsRoom(v)
  {
    hide Dec;
    DecLengths(v / 0x1_0000);
    DecLengths(v % 0x1_0000);
  }

  /** The text and its terminating zero fit in the buffer, exactly so when every value fills its room. */
  lemma {:induction false} PrintFits(s: seq<CommunityVal>)
    requires s != []
    ensures |Print(s)| + 1 <= BufferLength(s)
    ensures |Print(s)| + 1 == BufferLength(s) <==> forall i :: 0 <= i < |s| ==> FillsRoom(s[i])
  {
    hide ValText, Room, FillsRoom;
    ValTextLength(s[0]);
    if |s| > 1 {
      PrintFits(s[1..]);
      assert s == [s[0]] + s[1..];
    }
  }

  /** The length loop of `set_community_string`. */
  method StringLength(vals: seq<CommunityVal>) returns (len: nat)
    ensures len == BufferLength(vals)
  {
    hide Room;
    len := 0;
    var i := 0;
    while i < |vals|
      invariant 0 <= i <= |vals|
      invariant len + BufferLength(vals[i..]) == BufferLength(vals)
    {
      assert vals[i..][1..] == vals[i + 1..];
      len := len + Room(vals[i]);
      i := i + 1;
    }
  }

  /** What is still to be printed behind the first `i` values. */
  ghost function Rest(vals: seq<CommunityVal>, i: nat): string
    requires i <= |vals|
  {
    if i == 0 || i == |vals| then Print(vals[i..]) else [' '] + Print(vals[i..])
  }

  lemma RestStep(vals: seq<CommunityVal>, i: nat)
    requires i < |vals|
    ensures Rest(vals, i) == (if i == 0 then "" else " ") + ValText(vals[i]) + Rest(vals, i + 1)
  {
    hide ValText;
    assert vals[i..][1..] == vals[i + 1..];
    if i + 1 == |vals| {
      assert Print(vals[i..]) == ValText(vals[i]);
    } else {
      assert Print(vals[i..]) == ValText(vals[i]) + ([' '] + Print(vals[i + 1..]));
    }
  }

  /** `set_community_string`: the text and its terminating zero fit in the buffer measured first. */
  method SetString(vals: seq<CommunityVal>) returns (str: string, len: nat)
    ensures str == Print(vals)
    ensures |str| < len
  {
    if |vals| == 0 {
      return "", 1;
    }
    len := StringLength(vals);
    PrintFits(vals);
    hide Print, BufferLength;
    str := FillString(vals);
  }

  /** The filling loop of `set_community_string`. */
  method FillString(vals: seq<CommunityVal>) returns (str: string)
    ensures str == Print(vals)
  {
    hide Print, ValText, Rest;
    str := "";
    var first := true;
    RestStart(vals);
    for i := 0 to |vals|
      invariant first == (i == 0)
      invariant str + Rest(vals, i) == Print(vals)
    {
      RestStep(vals, i);
      ghost var before, lead := str, if i == 0 then "" else " ";
      if first {
        first := false;
      } else {
        str := str + " ";
      }
      assert str == before + lead;
      str := str + ValText(vals[i]);
      Regroup(before, lead, ValText(vals[i]), Rest(vals, i + 1));
    }
    RestEnd(vals);
  }

  lemma RestStart(vals: seq<CommunityVal>)
    ensures "" + Rest(vals, 0) == Print(vals)
  {
    assert vals[0..] == vals;
  }

  lemma RestEnd(vals: seq<CommunityVal>)
    ensures Rest(vals, |vals|) == ""
  {
  }

  // ---------------------------------------------------------------------
  // Tokens

  /** `isalpha`. */
  predicate IsAlpha(c: char) {
    'a' <= c <= 'z' || 'A' <= c <= 'Z'
  }

  predicate StartsWith(s: string, k: string) {
    |k| <= |s| && s[..|k|] == k
  }

  function Skip(s: string): (t: string)
    ensures |t| <= |s|
    ensures t != [] ==> !IsSpace(t[0])
  {
    if s != [] && IsSpace(s[0]) then Skip(s[1..]) else s
  }

  /** Digits and colons of one value. */
  datatype Scan = Scan(separator: bool, digit: bool, low: nat, high: nat)

  /**
    The value a run of digits and colons stands for, and what is left of the
    text; 32-bit accumulation wraps around.
   */
  function ScanValue(s: string, c: Scan): Option<(CommunityVal, string)>
    decreases |s|
  {
    if s != [] && s[0] == ':' then
      if c.separator || c.low > UINT16_MAX then None
      else ScanValue(s[1..], Scan(true, false, 0, c.low * 0x1_0000 % 0x1_0000_0000))
    else if s != [] && IsDigit(s[0]) then
      ScanValue(s[1..], c.(digit := true, low := (c.low * 10 + ValueOf(s[0])) % 0x1_0000_0000))
    else if !c.digit || c.low > UINT16_MAX then None
    else Some(((c.high + c.low) % 0x1_0000_0000, s))
  }

  datatype Lexed = End | Bad | Val(val: CommunityVal, rest: string)

  /** `community_gettoken`. */
  function NextToken(s: string): Lexed {
    var t := Skip(s);
    if t == [] then End
    else if IsAlpha(t[0]) then
      if StartsWith(t, "internet") then Val(COMMUNITY_INTERNET, t[8..])
      else if StartsWith(t, "no-export") then Val(COMMUNITY_NO_EXPORT, t[9..])
      else if StartsWith(t, "no-advertise") then Val(COMMUNITY_NO_ADVERTISE, t[12..])
      else if StartsWith(t, "local-AS") then Val(COMMUNITY_LOCAL_AS, t[8..])
      else Bad
    else if IsDigit(t[0]) then
      match ScanValue(t, Scan(false, false, 0, 0))
      case None => Bad
      case Some((v, rest)) => Val(v, rest)
    else Bad
  }

  lemma {:induction false} ScanShrinks(s: string, c: Scan)
    requires ScanValue(s, c).Some?
    ensures |ScanValue(s, c).value.1| <= |s|
    ensures s != [] && IsDigit(s[0]) ==> |ScanValue(s, c).value.1| < |s|
    decreases |s|
  {
    if s != [] && s[0] == ':' {
      ScanShrinks(s[1..], Scan(true, false, 0, c.low * 0x1_0000 % 0x1_0000_0000));
    } else if s != [] && IsDigit(s[0]) {
      ScanShrinks(s[1..], c.(digit := true, low := (c.low * 10 + ValueOf(s[0])) % 0x1_0000_0000));
    }
  }

  /** Every token takes at least one character. */
  lemma NextShrinks(s: string)
    requires NextToken(s).Val?
    ensures |NextToken(s).rest| < |s|
  {
    var t := Skip(s);
    if IsDigit(t[0]) {
      ScanShrinks(t, Scan(false, false, 0, 0));
    }
  }

  /**
    The loop of `community_str2com` from a text, with the values and the last
    token so far.  At the end of the text the last token is still there and is
    added once more.
   */
  function Collect(s: string, vals: seq<CommunityVal>, last: Option<CommunityVal>): Option<seq<CommunityVal>>
    decreases |s|
  {
    match NextToken(s)
    case Bad => None
    case End => if last.None? then None else Some(vals + [last.value])
    case Val(v, rest) =>
      NextShrinks(s);
      Collect(rest, vals + [v], Some(v))
  }

  /** `community_str2com`. */
  function ParseText(s: string): Option<seq<CommunityVal>> {
    match Collect(s, [], None)
    case None => None
    case Some(vals) => Some(CanonSet(vals))
  }

  // ---------------------------------------------------------------------
  // Reading printed text

  predicate EndsVal(s: string) {
    s == [] || s[0] == ' '
  }

  lemma {:induction false} ScanDigits(d: string, s: string, c: Scan)
    requires forall i :: 0 <= i < |d| ==> IsDigit(d[i])
    ensures ScanValue(d + s, c) == ScanValue(s, c.(digit := c.digit || d != [], low := Read(c.low, d)))
    decreases |d|
  {
    if d == [] {
      assert d + s == s;
    } else {
      assert (d + s)[0] == d[0] && (d + s)[1..] == d[1..] + s;
      ScanDigits(d[1..], s, c.(digit := true, low := (c.low * 10 + ValueOf(d[0])) % 0x1_0000_0000));
    }
  }

  lemma ScanPair(a: nat, b: nat, s: string)
    requires a <= UINT16_MAX && b <= UINT16_MAX && EndsVal(s)
    ensures ScanValue(Dec(a) + [':'] + Dec(b) + s, Scan(false, false, 0, 0)) == Some((a * 0x1_0000 + b, s))
  {
    hide Dec, Read;
    ReadDec(a);
    ReadDec(b);
    var tail := Dec(b) + s;
    assert Dec(a) + [':'] + Dec(b) + s == Dec(a) + ([':'] + tail);
    ScanDigits(Dec(a), [':'] + tail, Scan(false, false, 0, 0));
    assert ([':'] + tail)[1..] == tail;
    ScanDigits(Dec(b), s, Scan(true, false, 0, a * 0x1_0000));
  }

  lemma StartsWithPrefix(k: string, s: string)
    ensures StartsWith(k + s, k) && (k + s)[|k|..] == s
  {
  }

  lemma {:induction false} OtherWord(t: string, k: string, i: nat)
    requires i < |t| && i < |k| && t[i] != k[i]
    ensures !StartsWith(t, k)
  {
  }

  lemma {:induction false} NextInternet(s: string)
    ensures NextToken("internet" + s) == Val(COMMUNITY_INTERNET, s)
  {
    hide StartsWith;
    var t := "internet" + s;
    StartsWithPrefix("internet", s);
    assert Skip(t) == t;
  }

  lemma {:induction false} NextNoExport(s: string)
    ensures NextToken("no-export" + s) == Val(COMMUNITY_NO_EXPORT, s)
  {
    hide StartsWith;
    var t := "no-export" + s;
    StartsWithPrefix("no-export", s);
    OtherWord(t, "internet", 0);
    assert Skip(t) == t;
  }

  lemma {:induction false} NextNoAdvertise(s: string)
    ensures NextToken("no-advertise" + s) == Val(COMMUNITY_NO_ADVERTISE, s)
  {
    hide StartsWith;
    var t := "no-advertise" + s;
    StartsWithPrefix("no-advertise", s);
    OtherWord(t, "internet", 0);
    OtherWord(t, "no-export", 3);
    assert Skip(t) == t;
  }

  lemma {:induction false} NextLocalAs(s: string)
    ensures NextToken("local-AS" + s) == Val(COMMUNITY_LOCAL_AS, s)
  {
    hide StartsWith;
    var t := "local-AS" + s;
    StartsWithPrefix("local-AS", s);
    OtherWord(t, "internet", 0);
    OtherWord(t, "no-export", 0);
    OtherWord(t, "no-advertise", 0);
    assert Skip(t) == t;
  }

  lemma {:induction false} NextKeyword(v: CommunityVal, s: string)
    requires Keyword(v).Some?
    ensures NextToken(Keyword(v).value + s) == Val(v, s)
  {
    hide NextToken;
    NextInternet(s);
    NextNoExport(s);
    NextNoAdvertise(s);
    NextLocalAs(s);
  }

  lemma NextPair(v: CommunityVal, s: string)
    requires Keyword(v).None? && EndsVal(s)
    ensures NextToken(ValText(v) + s) == Val(v, s)
  {
    hide Dec;
    var a, b := v / 0x1_0000, v % 0x1_0000;
    var t := Dec(a) + [':'] + Dec(b) + s;
    ScanPair(a, b, s);
    assert t[0] == Dec(a)[0] && IsDigit(t[0]);
    assert Skip(t) == t;
    hide ScanValue;
  }

  lemma NextVal(v: CommunityVal, s: string)
    requires EndsVal(s)
    ensures NextToken(ValText(v) + s) == Val(v, s)
  {
    hide NextToken;
    if Keyword(v).Some? {
      NextKeyword(v, s);
    } else {
      NextPair(v, s);
    }
  }

  lemma NextSpace(s: string)
    ensures NextToken([' '] + s) == NextToken(s)
  {
    assert ([' '] + s)[1..] == s;
    assert Skip([' '] + s) == Skip(s);
  }

  lemma CollectSpace(s: string, vals: seq<CommunityVal>, last: Option<CommunityVal>)
    ensures Collect([' '] + s, vals, last) == Collect(s, vals, last)
  {
    NextSpace(s);
    hide NextToken;
  }

  lemma CollectVal(v: CommunityVal, s: string, vals: seq<CommunityVal>, last: Option<CommunityVal>)
    requires EndsVal(s)
    ensures Collect(ValText(v) + s, vals, last) == Collect(s, vals + [v], Some(v))
  {
    NextVal(v, s);
    hide NextToken, ValText;
  }

  /** All values are collected, the last one twice. */
  lemma {:induction false} CollectPrint(s: seq<CommunityVal>, vals: seq<CommunityVal>, last: Option<CommunityVal>)
    requires s != []
    ensures Collect(Print(s), vals, last) == Some(vals + s + [s[|s| - 1]])
    decreases |s|
  {
    hide ValText, NextToken;
    if |s| == 1 {
      assert ValText(s[0]) + [] == ValText(s[0]);
      CollectVal(s[0], [], vals, last);
      CollectEnd(vals + [s[0]], s[0]);
      assert s == [s[0]];
    } else {
      var rest := Print(s[1..]);
      assert Print(s) == ValText(s[0]) + ([' '] + rest);
      CollectVal(s[0], [' '] + rest, vals, last);
      CollectSpace(rest, vals + [s[0]], Some(s[0]));
      CollectPrint(s[1..], vals + [s[0]], Some(s[0]));
      assert vals + [s[0]] + s[1..] == vals + s;
    }
  }

  lemma CollectEnd(vals: seq<CommunityVal>, v: CommunityVal)
    ensures Collect([], vals, Some(v)) == Some(vals + [v])
  {
  }

  /** The text of any non-empty list reads back as the set of its values. */
  lemma PrintParse(s: seq<CommunityVal>)
    requires s != []
    ensures ParseText(Print(s)) == Some(CanonSet(s))
  {
    hide Print, CanonSet;
    CollectPrint(s, [], None);
    assert [] + s + [s[|s| - 1]] == s + [s[|s| - 1]];
    ElemsSnoc(s, s[|s| - 1]);
    assert s[|s| - 1] in Elems(s);
    assert Elems(s + [s[|s| - 1]]) == Elems(s);
    StrictlyIncreasingUnique(CanonSet(s + [s[|s| - 1]]), CanonSet(s));
  }

  /** The text gives a list back exactly when the list is a non-empty sorted set. */
  lemma TextRoundTrip(s: seq<CommunityVal>)
    ensures ParseText(Print(s)) == Some(s) <==> s != [] && StrictlyIncreasing(s)
  {
    hide StrictlyIncreasing;
    if s == [] {
      assert ParseText(Print(s)).None?;
    } else {
      hide ParseText, Print;
      PrintParse(s);
      if StrictlyIncreasing(s) {
        CanonSetFixed(s);
      }
      assert StrictlyIncreasing(CanonSet(s));
    }
  }

  // ---------------------------------------------------------------------
  // The loops

  lemma {:induction false} SkipFrom(str: string, i: nat, j: nat)
    requires i <= j <= |str|
    requires forall k :: i <= k < j ==> IsSpace(str[k])
    ensures Skip(str[i..]) == Skip(str[j..])
    decreases j - i
  {
    if i < j {
      assert str[i..][1..] == str[i + 1..];
      SkipFrom(str, i + 1, j);
    }
  }

  datatype Found = AtEnd | Unknown | Found(val: CommunityVal, next: nat)

  ghost predicate Agrees(str: string, f: Found, l: Lexed) {
    match f
    case AtEnd => l == End
    case Unknown => l == Bad
    case Found(v, p) => p <= |str| && l == Val(v, str[p..])
  }

  method HasPrefix(str: string, p: nat, k: string) returns (yes: bool)
    requires p <= |str|
    ensures yes <==> StartsWith(str[p..], k)
    ensures yes ==> p + |k| <= |str| && str[p..][|k|..] == str[p + |k|..]
  {
    yes := |k| <= |str| - p && str[p..p + |k|] == k;
    assert |k| <= |str| - p ==> str[p..][..|k|] == str[p..p + |k|];
  }

  /** The digits and colons of one value. */
  method GetValue(str: string, p: nat) returns (f: Found)
    requires p <= |str|
    ensures match ScanValue(str[p..], Scan(false, false, 0, 0))
            case None => f == Unknown
            case Some((v, rest)) => f.Found? && f.val == v && f.next <= |str| && str[f.next..] == rest
  {
    var c := Scan(false, false, 0, 0);
    var q := p;
    while q < |str| && (IsDigit(str[q]) || str[q] == ':')
      invariant p <= q <= |str|
      invariant ScanValue(str[p..], Scan(false, false, 0, 0)) == ScanValue(str[q..], c)
    {
      assert str[q..][1..] == str[q + 1..];
      if str[q] == ':' {
        if c.separator || c.low > UINT16_MAX {
          return Unknown;
        }
        c := Scan(true, false, 0, c.low * 0x1_0000 % 0x1_0000_0000);
      } else {
        c := c.(digit := true, low := (c.low * 10 + ValueOf(str[q])) % 0x1_0000_0000);
      }
      q := q + 1;
    }
    if !c.digit || c.low > UINT16_MAX {
      return Unknown;
    }
    return Found((c.high + c.low) % 0x1_0000_0000, q);
  }

  /** `community_gettoken` from position `p`. */
  method GetToken(str: string, p: nat) returns (f: Found)
    requires p <= |str|
    ensures Agrees(str, f, NextToken(str[p..]))
  {
    hide ScanValue;
    var q := p;
    while q < |str| && IsSpace(str[q])
      invariant p <= q <= |str|
      invariant forall k :: p <= k < q ==> IsSpace(str[k])
    {
      q := q + 1;
    }
    SkipFrom(str, p, q);
    assert Skip(str[q..]) == str[q..];
    if q == |str| {
      return AtEnd;
    }
    if IsAlpha(str[q]) {
      f := GetKeyword(str, q);
      return;
    }
    if IsDigit(str[q]) {
      f := GetValue(str, q);
      return;
    }
    return Unknown;
  }

  /** The well-known names. */
  method GetKeyword(str: string, q: nat) returns (f: Found)
    requires q < |str| && IsAlpha(str[q])
    ensures Agrees(str, f, NextToken(str[q..]))
  {
    hide StartsWith;
    assert str[q..][0] == str[q] && Skip(str[q..]) == str[q..];
    var yes := HasPrefix(str, q, "internet");
    if yes {
      return Found(COMMUNITY_INTERNET, q + 8);
    }
    yes := HasPrefix(str, q, "no-export");
    if yes {
      return Found(COMMUNITY_NO_EXPORT, q + 9);
    }
    yes := HasPrefix(str, q, "no-advertise");
    if yes {
      return Found(COMMUNITY_NO_ADVERTISE, q + 12);
    }
    yes := HasPrefix(str, q, "local-AS");
    if yes {
      return Found(COMMUNITY_LOCAL_AS, q + 8);
    }
    return Unknown;
  }

  /** `community_str2com`: the token variables keep their values when the text ends. */
  method StrToCommunity(str: string) returns (r: Option<seq<CommunityVal>>)
    ensures r == ParseText(str)
  {
    hide NextToken, CanonSet;
    var vals: seq<CommunityVal> := [];
    var last: Option<CommunityVal> := None;
    var p := 0;
    var ended := false;
    assert str[0..] == str;
    while !ended
      invariant p <= |str|
      invariant !ended ==> Collect(str, [], None) == Collect(str[p..], vals, last)
      invariant ended ==> Collect(str, [], None) == Some(vals)
      decreases !ended, |str| - p
    {
      var f := GetToken(str, p);
      match f {
        case Unknown =>
          return None;
        case AtEnd =>
          if last.None? {
            return None;
          }
          ended := true;
          vals := vals + [last.value];
        case Found(v, next) =>
          NextShrinks(str[p..]);
          last := Some(v);
          vals := vals + [v];
          p := next;
      }
    }
    var sorted := UniqSort(vals);
    return Some(sorted);
  }

  // ---------------------------------------------------------------------
  // In letters and figures

  /** The text of one value: a name for the four well-known ones, else two numbers with a colon. */
  lemma {:induction false} ValTextMeans(v: CommunityVal)
    ensures ValText(v) ==
      if v == 0 then "internet"
      else if v == 0xFFFF_FF01 then "no-export"
      else if v == 0xFFFF_FF02 then "no-advertise"
      else if v == 0xFFFF_FF03 then "local-AS"
      else Dec(v / 65536) + ":" + Dec(v % 65536)
  {
    hide Dec;
  }

  /** Two numbers with a colon are a value exactly when both are at most 65535. */
  lemma {:induction false} PairMeans(a: nat, b: nat, s: string)
    requires a < 0x1_0000_0000 && b < 0x1_0000_0000 && EndsVal(s)
    ensures NextToken(Dec(a) + [':'] + Dec(b) + s) == if a <= 65535 && b <= 65535 then Val(a * 65536 + b, s) else Bad
  {
    hide Dec, Read;
    var t := Dec(a) + [':'] + Dec(b) + s;
    PairScan(a, b, s);
    assert t[0] == Dec(a)[0] && IsDigit(t[0]);
    assert Skip(t) == t;
    hide ScanValue;
  }

  lemma {:induction false} PairScan(a: nat, b: nat, s: string)
    requires a < 0x1_0000_0000 && b < 0x1_0000_0000 && EndsVal(s)
    ensures ScanValue(Dec(a) + [':'] + Dec(b) + s, Scan(false, false, 0, 0)) ==
      if a <= 65535 && b <= 65535 then Some((a * 65536 + b, s)) else None
  {
    hide Dec, Read;
    ReadDec(a);
    ReadDec(b);
    var tail := Dec(b) + s;
    assert Dec(a) + [':'] + Dec(b) + s == Dec(a) + ([':'] + tail);
    ScanDigits(Dec(a), [':'] + tail, Scan(false, false, 0, 0));
    assert ([':'] + tail)[1..] == tail;
    if a <= 65535 {
      ScanDigits(Dec(b), s, Scan(true, false, 0, a * 65536));
    }
  }

  /** A number alone is a value up to 65535. */
  lemma {:induction false} NumberMeans(n: nat, s: string)
    requires n < 0x1_0000_0000 && EndsVal(s)
    ensures NextToken(Dec(n) + s) == if n <= 65535 then Val(n, s) else Bad
  {
    hide Dec, Read;
    ReadDec(n);
    var t := Dec(n) + s;
    ScanDigits(Dec(n), s, Scan(false, false, 0, 0));
    assert t[0] == Dec(n)[0] && IsDigit(t[0]);
    assert Skip(t) == t;
  }

  // ---------------------------------------------------------------------
  // Any text

  /** The values of a text; none if some token is not a value. */
  ghost function Values(s: string): Option<seq<CommunityVal>>
    decreases |s|
  {
    match NextToken(s)
    case Bad => None
    case End => Some([])
    case Val(v, rest) =>
      NextShrinks(s);
      var t := Values(rest);
      if t.None? then None else Some([v] + t.value)
  }

  lemma {:induction false} CollectValues(s: string, vals: seq<CommunityVal>, last: Option<CommunityVal>)
    requires last.Some? <==> vals != []
    requires last.Some? ==> vals[|vals| - 1] == last.value
    ensures
      var t := Values(s);
      Collect(s, vals, last) ==
        if t.None? || vals + t.value == [] then None
        else Some(vals + t.value + [(vals + t.value)[|vals + t.value| - 1]])
    decreases |s|
  {
    hide NextToken;
    match NextToken(s)
    case Bad =>
    case End =>
      assert vals + [] == vals;
    case Val(v, rest) =>
      NextShrinks(s);
      CollectValues(rest, vals + [v], Some(v));
      if Values(rest).Some? {
        assert vals + ([v] + Values(rest).value) == vals + [v] + Values(rest).value;
      }
  }

  /** A text is read as the sorted set of all its values, and refused if it has none or holds anything else. */
  lemma {:induction false} ParseMeans(s: string)
    ensures ParseText(s) == if Values(s).None? || Values(s).value == [] then None else Some(CanonSet(Values(s).value))
  {
    hide NextToken, Collect, CanonSet, Values;
    CollectValues(s, [], None);
    if Values(s).Some? && Values(s).value != [] {
      var v := Values(s).value;
      assert [] + v == v;
      TwiceLast(v);
    }
  }

  lemma {:induction false} TwiceLast(v: seq<CommunityVal>)
    requires v != []
    ensures CanonSet(v + [v[|v| - 1]]) == CanonSet(v)
  {
    hide CanonSet;
    var w := v + [v[|v| - 1]];
    assert forall x :: x in w <==> x in v;
    assert Elems(w) == Elems(v);
    StrictlyIncreasingUnique(CanonSet(w), CanonSet(v));
  }
}

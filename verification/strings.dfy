/** The subset of Go's `strings` and `strconv` packages the dashboard relies on,
    over ASCII text (one `char` per byte). */
module Strings {
  import opened Wrappers

  const MinInt64: int := -0x8000_0000_0000_0000
  const MaxInt64: int := 0x7FFF_FFFF_FFFF_FFFF

  /** A Go `int` on a 64-bit platform. */
  type Int64 = x: int | MinInt64 <= x <= MaxInt64

  // ---------------------------------------------------------------------------
  // Characters
  // ---------------------------------------------------------------------------

  /** ASCII white space as recognised by Go's `unicode.IsSpace`. */
  predicate IsSpace(c: char) {
    c == ' ' || c == '\t' || c == '\n' || c == '\r' || c == '\U{0B}' || c == '\U{0C}'
  }

  predicate IsDigit(c: char) {
    '0' <= c <= '9'
  }

  function LowerChar(c: char): char {
    if 'A' <= c <= 'Z' then (c as int + 32) as char else c
  }

  /** ASCII `strings.ToLower`. */
  function ToLower(s: string): (r: string)
    ensures |r| == |s|
    ensures forall i :: 0 <= i < |s| ==> r[i] == LowerChar(s[i])
  {
    seq(|s|, i requires 0 <= i < |s| => LowerChar(s[i]))
  }

  lemma ToLowerIdempotent(s: string)
    ensures ToLower(ToLower(s)) == ToLower(s)
  {
  }

  // ---------------------------------------------------------------------------
  // Prefix, suffix, containment
  // ---------------------------------------------------------------------------

  predicate HasPrefix(s: string, p: string) {
    |p| <= |s| && s[..|p|] == p
  }

  predicate HasSuffix(s: string, p: string) {
    |p| <= |s| && s[|s| - |p|..] == p
  }

  /** `strings.Contains`: `sub` occurs at some position of `s`. */
  predicate Contains(s: string, sub: string)
    decreases |s|
  {
    HasPrefix(s, sub) || (|s| > 0 && Contains(s[1..], sub))
  }

  lemma {:induction false} ContainsAt(s: string, sub: string, i: nat)
    requires i + |sub| <= |s| && s[i..i + |sub|] == sub
    ensures Contains(s, sub)
    decreases i
  {
    if i > 0 {
      assert s[1..][i - 1..i - 1 + |sub|] == sub;
      ContainsAt(s[1..], sub, i - 1);
    }
  }

  lemma {:induction false} ContainsAppend(a: string, b: string, sub: string)
    requires Contains(a, sub) || Contains(b, sub)
    ensures Contains(a + b, sub)
    decreases |a|
  {
    if |a| > 0 && !(HasPrefix(a, sub) && Contains(a, sub)) {
      assert (a + b)[1..] == a[1..] + b;
      if Contains(a, sub) {
        ContainsAppend(a[1..], b, sub);
      } else {
        ContainsAppend(a[1..], b, sub);
      }
    } else if |a| > 0 {
      assert (a + b)[..|sub|] == a[..|sub|];
    } else {
      assert a + b == b;
    }
  }

  function TrimPrefix(s: string, p: string): (r: string)
    ensures HasPrefix(s, p) ==> s == p + r
    ensures !HasPrefix(s, p) ==> r == s
  {
    if HasPrefix(s, p) then s[|p|..] else s
  }

  /** `strings.TrimRight(s, cutset)` for a one-character cutset. */
  function TrimRightChar(s: string, c: char): (r: string)
    ensures |r| <= |s| && r == s[..|r|]
    ensures |r| > 0 ==> r[|r| - 1] != c
    ensures forall i :: |r| <= i < |s| ==> s[i] == c
    decreases |s|
  {
    if |s| > 0 && s[|s| - 1] == c then TrimRightChar(s[..|s| - 1], c) else s
  }

  // ---------------------------------------------------------------------------
  // White-space trimming and fields
  // ---------------------------------------------------------------------------

  function TrimLeftSpace(s: string): (r: string)
    ensures |r| <= |s| && r == s[|s| - |r|..]
    ensures |r| > 0 ==> !IsSpace(r[0])
    ensures forall i :: 0 <= i < |s| - |r| ==> IsSpace(s[i])
    decreases |s|
  {
    if |s| > 0 && IsSpace(s[0]) then TrimLeftSpace(s[1..]) else s
  }

  function TrimRightSpace(s: string): (r: string)
    ensures |r| <= |s| && r == s[..|r|]
    ensures |r| > 0 ==> !IsSpace(r[|r| - 1])
    ensures forall i :: |r| <= i < |s| ==> IsSpace(s[i])
    decreases |s|
  {
    if |s| > 0 && IsSpace(s[|s| - 1]) then TrimRightSpace(s[..|s| - 1]) else s
  }

  /** `r` is `s` without its leading and trailing white space: a contiguous
      slice of `s`, everything around it white space, and its own ends not. */
  ghost predicate TrimmedOf(s: string, r: string) {
    exists i, j :: && 0 <= i <= j <= |s| && r == s[i..j]
                   && (forall k :: 0 <= k < i ==> IsSpace(s[k]))
                   && (forall k :: j <= k < |s| ==> IsSpace(s[k]))
                && (|r| > 0 ==> !IsSpace(r[0]) && !IsSpace(r[|r| - 1]))
  }

  lemma TrimmedOfIntro(s: string, r: string, i: nat, j: nat)
    requires i <= j <= |s| && r == s[i..j]
    requires forall k :: 0 <= k < i ==> IsSpace(s[k])
    requires forall k :: j <= k < |s| ==> IsSpace(s[k])
    requires |r| > 0 ==> !IsSpace(r[0]) && !IsSpace(r[|r| - 1])
    ensures TrimmedOf(s, r)
  {
  }

  /** The bounds of the slice that `TrimmedOf` promises. */
  lemma TrimmedOfBounds(s: string, r: string) returns (i: nat, j: nat)
    requires TrimmedOf(s, r)
    ensures i <= j <= |s| && r == s[i..j]
    ensures forall k :: 0 <= k < i ==> IsSpace(s[k])
    ensures forall k :: j <= k < |s| ==> IsSpace(s[k])
    ensures |r| > 0 ==> !IsSpace(r[0]) && !IsSpace(r[|r| - 1])
  {
    i, j :| && 0 <= i <= j <= |s| && r == s[i..j]
            && (forall k :: 0 <= k < i ==> IsSpace(s[k]))
            && (forall k :: j <= k < |s| ==> IsSpace(s[k]))
            && (|r| > 0 ==> !IsSpace(r[0]) && !IsSpace(r[|r| - 1]));
  }

  /** `strings.TrimSpace`. */
  function TrimSpace(s: string): (r: string)
    ensures |r| <= |s|
    ensures |r| > 0 ==> !IsSpace(r[0]) && !IsSpace(r[|r| - 1])
  {
    TrimRightSpace(TrimLeftSpace(s))
  }

  /** `TrimSpace` leaves exactly the trimmed slice of its input. */
  lemma TrimSpaceTrimmed(s: string)
    ensures TrimmedOf(s, TrimSpace(s))
  {
    var t := TrimLeftSpace(s);
    var r := TrimRightSpace(t);
    var i := |s| - |t|;
    assert r == s[i..i + |r|] by {
      assert t == s[i..];
    }
    forall k | i + |r| <= k < |s| ensures IsSpace(s[k]) {
      assert s[k] == t[k - i];
    }
    TrimmedOfIntro(s, r, i, i + |r|);
  }

  /** Trimming has one answer: at most one slice of a text is its trimmed form. */
  lemma TrimmedOfUnique(s: string, r1: string, r2: string)
    requires TrimmedOf(s, r1) && TrimmedOf(s, r2)
    ensures r1 == r2
  {
    var i1, j1 := TrimmedOfBounds(s, r1);
    var i2, j2 := TrimmedOfBounds(s, r2);
    if |r1| > 0 {
      StartNotBefore(s, r1, i1, j1, i2);
      EndNotAfter(s, r1, i1, j1, j2);
    }
    if |r2| > 0 {
      StartNotBefore(s, r2, i2, j2, i1);
      EndNotAfter(s, r2, i2, j2, j1);
    }
  }

  /** A trimmed slice cannot start before another: that character would be
      white space before the other's start. */
  lemma StartNotBefore(s: string, r1: string, i1: nat, j1: nat, i2: nat)
    requires i1 <= j1 <= |s| && r1 == s[i1..j1] && |r1| > 0 && !IsSpace(r1[0])
    requires i2 <= |s| && forall k :: 0 <= k < i2 ==> IsSpace(s[k])
    ensures i2 <= i1
  {
    assert r1[0] == s[i1];
  }

  /** Nor can it end after another. */
  lemma EndNotAfter(s: string, r1: string, i1: nat, j1: nat, j2: nat)
    requires i1 <= j1 <= |s| && r1 == s[i1..j1] && |r1| > 0 && !IsSpace(r1[|r1| - 1])
    requires forall k :: j2 <= k < |s| ==> IsSpace(s[k])
    ensures j1 <= j2
  {
    assert r1[|r1| - 1] == s[j1 - 1];
  }

  /** Text whose first and last characters are not white space is unchanged by trimming. */
  lemma TrimSpaceNoop(s: string)
    requires |s| > 0 ==> !IsSpace(s[0]) && !IsSpace(s[|s| - 1])
    ensures TrimSpace(s) == s
  {
  }

  /** Index of the first white-space character, or |s| when there is none. */
  function FirstSpace(s: string): (i: nat)
    ensures i <= |s|
    ensures i < |s| ==> IsSpace(s[i])
    ensures forall j :: 0 <= j < i ==> !IsSpace(s[j])
    decreases |s|
  {
    if |s| == 0 then 0 else if IsSpace(s[0]) then 0 else 1 + FirstSpace(s[1..])
  }

  /** A non-empty word without white space. */
  predicate IsField(w: string) {
    |w| > 0 && forall j :: 0 <= j < |w| ==> !IsSpace(w[j])
  }

  /** `strings.Fields`: the maximal runs of non-space characters, in order. */
  function Fields(s: string): (r: seq<string>)
    ensures forall k :: 0 <= k < |r| ==> IsField(r[k])
    decreases |s|
  {
    var t := TrimLeftSpace(s);
    if t == "" then []
    else
      var i := FirstSpace(t);
      FirstWord(t);
      var rest := Fields(t[i..]);
      FieldsCons(t[..i], rest);
      [t[..i]] + rest
  }

  /** The text before the first white space of a text not starting with one is a field. */
  lemma FirstWord(t: string)
    requires |t| > 0 && !IsSpace(t[0])
    ensures 0 < FirstSpace(t) && IsField(t[..FirstSpace(t)])
  {
    var w := t[..FirstSpace(t)];
    assert forall j :: 0 <= j < |w| ==> w[j] == t[j];
  }

  lemma FieldsCons(w: string, rest: seq<string>)
    requires IsField(w) && forall k :: 0 <= k < |rest| ==> IsField(rest[k])
    ensures forall k :: 0 <= k < |[w] + rest| ==> IsField(([w] + rest)[k])
  {
  }

  // ---------------------------------------------------------------------------
  // Split and Join on a one-character separator
  // ---------------------------------------------------------------------------

  /** Index of the first `c` in `s`, or |s| when there is none. */
  function IndexOf(s: string, c: char): (i: nat)
    ensures i <= |s|
    ensures i < |s| ==> s[i] == c
    ensures forall j :: 0 <= j < i ==> s[j] != c
    decreases |s|
  {
    if |s| == 0 then 0 else if s[0] == c then 0 else 1 + IndexOf(s[1..], c)
  }

  /** `strings.Split(s, sep)`: never empty; no part contains the separator. */
  function Split(s: string, sep: char): (parts: seq<string>)
    ensures |parts| >= 1
    ensures forall k :: 0 <= k < |parts| ==> sep !in parts[k]
    decreases |s|
  {
    var i := IndexOf(s, sep);
    if i == |s| then [s] else [s[..i]] + Split(s[i + 1..], sep)
  }

  /** `strings.Join(parts, sep)`. */
  function Join(parts: seq<string>, sep: char): string
    decreases |parts|
  {
    if |parts| == 0 then ""
    else if |parts| == 1 then parts[0]
    else parts[0] + [sep] + Join(parts[1..], sep)
  }

  function Last(parts: seq<string>): string
    requires |parts| > 0
  {
    parts[|parts| - 1]
  }

  lemma JoinCons(a: string, tail: seq<string>, sep: char)
    requires |tail| >= 1
    ensures Join([a] + tail, sep) == a + [sep] + Join(tail, sep)
  {
    assert ([a] + tail)[1..] == tail;
  }

  /** Joining the pieces of a split restores the text. */
  lemma {:induction false} JoinSplit(s: string, sep: char)
    ensures Join(Split(s, sep), sep) == s
    decreases |s|
  {
    var i := IndexOf(s, sep);
    if i < |s| {
      var rest := s[i + 1..];
      var head := s[..i];
      var tail := Split(rest, sep);
      assert Split(s, sep) == [head] + tail;
      JoinSplit(rest, sep);
      JoinCons(head, tail, sep);
      calc {
        Join(Split(s, sep), sep);
        Join([head] + tail, sep);
        head + [sep] + Join(tail, sep);
        head + [sep] + rest;
        { assert s[i] == sep; }
        s;
      }
    }
  }

  /** Splitting a join of separator-free pieces gives the pieces back. */
  lemma {:induction false} SplitJoin(parts: seq<string>, sep: char)
    requires |parts| >= 1
    requires forall k :: 0 <= k < |parts| ==> sep !in parts[k]
    ensures Split(Join(parts, sep), sep) == parts
    decreases |parts|
  {
    var p := parts[0];
    if |parts| == 1 {
      IndexOfAbsent(p, sep);
    } else {
      var rest := Join(parts[1..], sep);
      var s := p + [sep] + rest;
      IndexOfAfter(p, sep, rest);
      assert s[..|p|] == p;
      assert s[|p| + 1..] == rest;
      SplitJoin(parts[1..], sep);
      assert parts == [p] + parts[1..];
    }
  }

  lemma IndexOfAbsent(s: string, c: char)
    requires c !in s
    ensures IndexOf(s, c) == |s|
  {
  }

  lemma {:induction false} IndexOfAfter(p: string, c: char, rest: string)
    requires c !in p
    ensures IndexOf(p + [c] + rest, c) == |p|
    decreases |p|
  {
    var s := p + [c] + rest;
    if |p| > 0 {
      assert s[0] == p[0];
      assert s[1..] == p[1..] + [c] + rest;
      IndexOfAfter(p[1..], c, rest);
    }
  }

  /** The last piece of a split is the text after the final separator. */
  lemma {:induction false} SplitLastAfter(a: string, sep: char, b: string)
    requires sep !in b
    ensures Last(Split(a + [sep] + b, sep)) == b
    decreases |a|
  {
    var s := a + [sep] + b;
    var i := IndexOf(s, sep);
    assert s[|a|] == sep;
    assert i <= |a|;
    SplitLastOfRest(s, sep);
    if i == |a| {
      assert s[i + 1..] == b;
      SplitNoSep(b, sep);
    } else {
      assert s[i + 1..] == a[i + 1..] + [sep] + b;
      SplitLastAfter(a[i + 1..], sep, b);
    }
  }

  /** Past the first separator, the last piece is that of the rest. */
  lemma SplitLastOfRest(s: string, sep: char)
    requires IndexOf(s, sep) < |s|
    ensures Last(Split(s, sep)) == Last(Split(s[IndexOf(s, sep) + 1..], sep))
  {
    var tail := Split(s[IndexOf(s, sep) + 1..], sep);
    SplitCons(s, sep);
    LastCons(s[..IndexOf(s, sep)], tail);
  }

  lemma LastCons(x: string, tail: seq<string>)
    requires |tail| >= 1
    ensures Last([x] + tail) == Last(tail)
  {
    assert ([x] + tail)[|tail|] == tail[|tail| - 1];
  }

  lemma SplitCons(s: string, sep: char)
    requires IndexOf(s, sep) < |s|
    ensures Split(s, sep) == [s[..IndexOf(s, sep)]] + Split(s[IndexOf(s, sep) + 1..], sep)
  {
  }

  /** The text after the last separator, which is the whole text when there
      is none: `parts[len(parts)-1]` of a split. */
  function LastComponent(s: string, sep: char): (r: string)
    ensures sep !in r
    ensures HasSuffix(s, r)
    ensures |r| == |s| || s[|s| - |r| - 1] == sep
  {
    SplitLastSuffix(s, sep);
    Last(Split(s, sep))
  }

  /** `r` is a suffix of `s` that starts `s` or follows a separator. */
  predicate EndsPiece(s: string, r: string, sep: char) {
    HasSuffix(s, r) && (|r| == |s| || s[|s| - |r| - 1] == sep)
  }

  lemma {:induction false} SplitLastSuffix(s: string, sep: char)
    ensures EndsPiece(s, Last(Split(s, sep)), sep)
    decreases |s|
  {
    var i := IndexOf(s, sep);
    if i == |s| {
      assert Split(s, sep) == [s];
      EndsPieceWhole(s, sep);
    } else {
      var rest := s[i + 1..];
      var r := Last(Split(rest, sep));
      SplitLastSuffix(rest, sep);
      SuffixAfterSep(s, i, rest, r, sep);
      SplitLastOfRest(s, sep);
      assert Last(Split(s, sep)) == r;
    }
  }

  lemma EndsPieceWhole(s: string, sep: char)
    ensures EndsPiece(s, s, sep)
  {
    assert s[|s| - |s|..] == s;
  }

  /** A piece-ending suffix of the text after the separator at `i` ends a piece of `s`. */
  lemma SuffixAfterSep(s: string, i: nat, rest: string, r: string, sep: char)
    requires i < |s| && s[i] == sep && rest == s[i + 1..]
    requires EndsPiece(rest, r, sep)
    ensures EndsPiece(s, r, sep)
  {
    var n := |s| - |r|;
    assert |rest| == |s| - i - 1;
    assert s[n..] == rest[|rest| - |r|..] by {
      assert forall k :: n <= k < |s| ==> s[k] == rest[k - i - 1];
    }
    if |r| < |rest| {
      assert s[n - 1] == rest[|rest| - |r| - 1];
    }
  }

  lemma SplitNoSep(s: string, sep: char)
    requires sep !in s
    ensures Split(s, sep) == [s]
  {
    IndexOfAbsent(s, sep);
  }

  /** `strings.ReplaceAll(s, from, to)` for one-character strings. */
  function ReplaceChar(s: string, from: char, to: char): (r: string)
    ensures |r| == |s|
    ensures forall i :: 0 <= i < |s| ==> r[i] == (if s[i] == from then to else s[i])
  {
    seq(|s|, i requires 0 <= i < |s| => if s[i] == from then to else s[i])
  }

  // ---------------------------------------------------------------------------
  // Decimal integers
  // ---------------------------------------------------------------------------

  function DigitChar(d: nat): char
    requires d < 10
  {
    ('0' as int + d) as char
  }

  function DigitValue(c: char): nat
    requires IsDigit(c)
  {
    c as int - '0' as int
  }

  predicate AllDigits(s: string) {
    forall i :: 0 <= i < |s| ==> IsDigit(s[i])
  }

  function DigitsValue(s: string): nat
    requires AllDigits(s)
    decreases |s|
  {
    if |s| == 0 then 0 else DigitsValue(s[..|s| - 1]) * 10 + DigitValue(s[|s| - 1])
  }

  function NatToString(n: nat): (r: string)
    ensures |r| > 0 && AllDigits(r)
    decreases n
  {
    if n < 10 then [DigitChar(n)] else NatToString(n / 10) + [DigitChar(n % 10)]
  }

  /** `fmt.Sprintf("%d", n)`. */
  function IntToString(n: int): string {
    if n < 0 then "-" + NatToString(-n) else NatToString(n)
  }

  lemma {:induction false} NatToStringValue(n: nat)
    ensures DigitsValue(NatToString(n)) == n
    decreases n
  {
    if n >= 10 {
      NatToStringValue(n / 10);
      var s := NatToString(n);
      assert s[..|s| - 1] == NatToString(n / 10);
    }
  }

  /** The unbounded value of an optionally signed decimal literal, as accepted by
      `strconv.ParseInt(s, 10, 64)` before its range check. */
  function DecimalSyntax(s: string): Option<int> {
    if |s| > 0 && (s[0] == '+' || s[0] == '-') then
      if |s| > 1 && AllDigits(s[1..]) then
        var magnitude: int := DigitsValue(s[1..]);
        Some(if s[0] == '-' then -magnitude else magnitude)
      else None
    else if |s| > 0 && AllDigits(s) then Some(DigitsValue(s))
    else None
  }

  /** `strconv.ParseInt(s, 10, 64)`; `None` is a syntax or range error. */
  function ParseInt64(s: string): (r: Option<Int64>)
    ensures r.Some? <==> DecimalSyntax(s).Some? && MinInt64 <= DecimalSyntax(s).value <= MaxInt64
    ensures r.Some? ==> r.value == DecimalSyntax(s).value
  {
    match DecimalSyntax(s)
    case None => None
    case Some(v) => if MinInt64 <= v <= MaxInt64 then Some(v) else None
  }

  /** `n, _ := strconv.Atoi(s)`: a syntax error yields 0 and a range error the
      nearest representable value, as strconv reports them. */
  function Atoi(s: string): (r: Int64)
    ensures DecimalSyntax(s).None? ==> r == 0
    ensures ParseInt64(s).Some? ==> r == ParseInt64(s).value
  {
    match DecimalSyntax(s)
    case None => 0
    case Some(v) => if v < MinInt64 then MinInt64 else if v > MaxInt64 then MaxInt64 else v
  }

  /** Printing an integer and parsing it back is the identity. */
  lemma IntToStringRoundTrip(n: Int64)
    ensures ParseInt64(IntToString(n)) == Some(n)
    ensures Atoi(IntToString(n)) == n
  {
    if n < 0 {
      var m: nat := -(n as int);
      NatToStringValue(m);
      var s := IntToString(n);
      assert s[1..] == NatToString(m);
    } else {
      NatToStringValue(n);
    }
  }

  /** `filepath.Join` of two clean, non-empty-tail pieces. */
  function JoinPath(dir: string, name: string): (r: string)
    ensures dir == "" ==> r == name
    ensures dir != "" && dir[|dir| - 1] == '/' ==> r == dir + name
    ensures dir != "" && dir[|dir| - 1] != '/' ==> r == dir + "/" + name
  {
    if dir == "" then name
    else if dir[|dir| - 1] == '/' then dir + name
    else dir + "/" + name
  }
}

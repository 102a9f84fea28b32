/** The byte-string operations of Go's `strings` and `fmt` packages that the connection
    loop of app/main.go applies to request text: white-space splitting and trimming,
    ASCII lower-casing, the split at the first colon, and decimal numbers as `%d`
    prints and scans them. */
module Bytes {
  import opened Wrappers

  /** One octet of a Go string, which is a string of bytes. Nothing here depends on
      its width: every operation below looks only at ASCII values. */
  type Byte = char
  type Bytes = seq<Byte>

  /** The largest value of Go's 64-bit `int`. */
  const MaxInt64: int := 0x7FFF_FFFF_FFFF_FFFF

  /** White space as Go's `strings.Fields` and `strings.TrimSpace` see it in ASCII text:
      tab, line feed, vertical tab, form feed, carriage return and space. */
  predicate IsSpace(c: Byte) {
    c == ' ' || c == '\t' || c == '\n' || c == '\r' || c as int == 11 || c as int == 12
  }

  predicate NoSpace(s: Bytes) {
    forall i :: 0 <= i < |s| ==> !IsSpace(s[i])
  }

  predicate AllSpace(s: Bytes) {
    forall i :: 0 <= i < |s| ==> IsSpace(s[i])
  }

  // ---------------------------------------------------------------------------
  // strings.TrimSpace

  function TrimLeftSpace(s: Bytes): (r: Bytes)
    ensures |r| <= |s|
  {
    if s != [] && IsSpace(s[0]) then TrimLeftSpace(s[1..]) else s
  }

  /** `TrimLeftSpace` drops a run of white space from the front and stops at the first
      byte that is not white space. */
  lemma {:induction false} TrimLeftSpaceDrops(s: Bytes)
    ensures var r := TrimLeftSpace(s);
      r == s[|s| - |r|..] && AllSpace(s[..|s| - |r|]) && (r == [] || !IsSpace(r[0]))
  {
    if s != [] && IsSpace(s[0]) {
      TrimLeftSpaceDrops(s[1..]);
    }
  }

  function TrimRightSpace(s: Bytes): (r: Bytes)
    ensures |r| <= |s|
  {
    if s != [] && IsSpace(s[|s| - 1]) then TrimRightSpace(s[..|s| - 1]) else s
  }

  /** `TrimRightSpace` drops a run of white space from the end and stops at the last
      byte that is not white space. */
  lemma {:induction false} TrimRightSpaceDrops(s: Bytes)
    ensures var r := TrimRightSpace(s);
      r == s[..|r|] && AllSpace(s[|r|..]) && (r == [] || !IsSpace(r[|r| - 1]))
  {
    if s != [] && IsSpace(s[|s| - 1]) {
      TrimRightSpaceDrops(s[..|s| - 1]);
    }
  }

  /** `strings.TrimSpace`: `s` without its leading and trailing white space. */
  function TrimSpace(s: Bytes): (r: Bytes)
    ensures |r| <= |s|
  {
    TrimRightSpace(TrimLeftSpace(s))
  }

  /** Text with no white space at either end. */
  predicate Trimmed(s: Bytes) {
    s == [] || (!IsSpace(s[0]) && !IsSpace(s[|s| - 1]))
  }

  /** `TrimSpace` leaves no white space at either end. */
  lemma TrimSpaceTrimmed(s: Bytes)
    ensures Trimmed(TrimSpace(s))
  {
    var l := TrimLeftSpace(s);
    TrimLeftSpaceDrops(s);
    TrimRightSpaceDrops(l);
  }

  /** What `TrimSpace` removes is white space at the two ends, all of it, and nothing
      else. */
  lemma TrimSpaceIsSlice(s: Bytes)
    ensures exists i, j :: 0 <= i <= j <= |s| && TrimSpace(s) == s[i..j] && AllSpace(s[..i]) && AllSpace(s[j..])
    ensures Trimmed(TrimSpace(s))
  {
    TrimSpaceTrimmed(s);
    var l := TrimLeftSpace(s);
    var r := TrimRightSpace(l);
    TrimLeftSpaceDrops(s);
    TrimRightSpaceDrops(l);
    var i, j := |s| - |l|, |s| - |l| + |r|;
    assert r == s[i..j];
    assert s[j..] == l[|r|..];
  }

  lemma {:induction false} TrimLeftOfBlanks(pre: Bytes, s: Bytes)
    requires AllSpace(pre)
    requires s == [] || !IsSpace(s[0])
    ensures TrimLeftSpace(pre + s) == s
  {
    if pre != [] {
      assert (pre + s)[1..] == pre[1..] + s;
      TrimLeftOfBlanks(pre[1..], s);
    }
  }

  lemma {:induction false} TrimRightOfBlanks(s: Bytes, post: Bytes)
    requires AllSpace(post)
    requires s == [] || !IsSpace(s[|s| - 1])
    ensures TrimRightSpace(s + post) == s
  {
    if post != [] {
      var t := s + post;
      assert t[..|t| - 1] == s + post[..|post| - 1];
      TrimRightOfBlanks(s, post[..|post| - 1]);
    } else {
      assert s + post == s;
    }
  }

  /** Trimming removes exactly the blanks around a word. */
  lemma TrimSpaceAround(pre: Bytes, word: Bytes, post: Bytes)
    requires AllSpace(pre) && AllSpace(post)
    requires word == [] || (!IsSpace(word[0]) && !IsSpace(word[|word| - 1]))
    requires word == [] ==> post == []
    ensures TrimSpace(pre + word + post) == word
  {
    assert pre + word + post == pre + (word + post);
    TrimLeftOfBlanks(pre, word + post);
    TrimRightOfBlanks(word, post);
  }

  /** Text that already has no surrounding white space is left as it is. */
  lemma TrimSpaceOfTrimmed(s: Bytes)
    requires s == [] || (!IsSpace(s[0]) && !IsSpace(s[|s| - 1]))
    ensures TrimSpace(s) == s
  {
  }

  // ---------------------------------------------------------------------------
  // strings.TrimRight(line, "\r\n")

  predicate IsLineEnd(c: Byte) {
    c == '\r' || c == '\n'
  }

  /** `strings.TrimRight(s, "\r\n")`: `s` without every trailing carriage return and
      line feed. */
  function TrimLineEnd(s: Bytes): (r: Bytes)
    ensures |r| <= |s| && r == s[..|r|]
    ensures forall i :: |r| <= i < |s| ==> IsLineEnd(s[i])
    ensures r == [] || !IsLineEnd(r[|r| - 1])
  {
    if s != [] && IsLineEnd(s[|s| - 1]) then TrimLineEnd(s[..|s| - 1]) else s
  }

  /** A line ended by CRLF loses exactly the CRLF when its text does not itself end in
      CR or LF. */
  lemma {:induction false} TrimLineEndOfCrLf(l: Bytes)
    requires l == [] || !IsLineEnd(l[|l| - 1])
    ensures TrimLineEnd(l + "\r\n") == l
  {
    var s := l + "\r\n";
    assert s[..|s| - 1] == l + "\r";
    assert s[..|s| - 1][..|l + "\r"| - 1] == l;
  }

  // ---------------------------------------------------------------------------
  // strings.ToLower on ASCII

  function LowerByte(c: Byte): Byte {
    if 'A' <= c <= 'Z' then (c as int + 32) as char else c
  }

  predicate NoUpper(s: Bytes) {
    forall i :: 0 <= i < |s| ==> !('A' <= s[i] <= 'Z')
  }

  /** `strings.ToLower` restricted to ASCII: every upper-case letter is replaced by its
      lower-case letter and every other byte is kept; the result has no upper-case letter. */
  function ToLower(s: Bytes): (r: Bytes)
    ensures |r| == |s|
  {
    if s == [] then [] else [LowerByte(s[0])] + ToLower(s[1..])
  }

  /** Byte `i` of the lower-cased text is byte `i` of the text, lower-cased, so no
      upper-case letter is left. */
  lemma {:induction false} ToLowerBytes(s: Bytes)
    ensures forall i :: 0 <= i < |s| ==> ToLower(s)[i] == LowerByte(s[i])
    ensures NoUpper(ToLower(s))
  {
    if s != [] {
      ToLowerBytes(s[1..]);
    }
  }

  /** Lower-casing works byte by byte, so it distributes over concatenation. */
  lemma ToLowerAppend(a: Bytes, b: Bytes)
    ensures ToLower(a + b) == ToLower(a) + ToLower(b)
  {
    ToLowerBytes(a + b);
    ToLowerBytes(a);
    ToLowerBytes(b);
  }

  /** Lower-casing twice is lower-casing once. */
  lemma ToLowerIdempotent(s: Bytes)
    ensures ToLower(ToLower(s)) == ToLower(s)
  {
    ToLowerBytes(s);
    ToLowerOfLower(ToLower(s));
  }

  /** Lower-casing changes letters only, so trimmed text stays trimmed. */
  lemma ToLowerTrimmed(s: Bytes)
    requires Trimmed(s)
    ensures Trimmed(ToLower(s))
  {
    ToLowerBytes(s);
  }

  /** Lower-casing changes nothing in text that has no upper-case letter. */
  lemma ToLowerOfLower(s: Bytes)
    requires NoUpper(s)
    ensures ToLower(s) == s
  {
    ToLowerBytes(s);
  }

  // ---------------------------------------------------------------------------
  // strings.Fields

  /** The length of the run of non-space bytes at the start of `s`. */
  function TokenLength(s: Bytes): (n: nat)
    ensures n <= |s| && NoSpace(s[..n])
    ensures n < |s| ==> IsSpace(s[n])
  {
    if s == [] || IsSpace(s[0]) then 0 else 1 + TokenLength(s[1..])
  }

  /** `strings.Fields`: the maximal runs of non-space bytes of `s`, in order. */
  function Fields(s: Bytes): (r: seq<Bytes>)
    ensures forall i :: 0 <= i < |r| ==> r[i] != [] && NoSpace(r[i])
    decreases |s|
  {
    if s == [] then []
    else if IsSpace(s[0]) then Fields(s[1..])
    else
      var n := TokenLength(s);
      [s[..n]] + Fields(s[n..])
  }

  function Concat(ss: seq<Bytes>): Bytes {
    if ss == [] then [] else ss[0] + Concat(ss[1..])
  }

  function RemoveSpace(s: Bytes): (r: Bytes) {
    if s == [] then [] else (if IsSpace(s[0]) then [] else [s[0]]) + RemoveSpace(s[1..])
  }

  lemma {:induction false} RemoveSpaceAppend(a: Bytes, b: Bytes)
    ensures RemoveSpace(a + b) == RemoveSpace(a) + RemoveSpace(b)
  {
    if a != [] {
      assert (a + b)[0] == a[0];
      assert (a + b)[1..] == a[1..] + b;
      RemoveSpaceAppend(a[1..], b);
      var head: Bytes := if IsSpace(a[0]) then [] else [a[0]];
      assert RemoveSpace(a + b) == head + (RemoveSpace(a[1..]) + RemoveSpace(b));
      assert RemoveSpace(a) == head + RemoveSpace(a[1..]);
    } else {
      assert a + b == b;
    }
  }

  lemma {:induction false} RemoveSpaceOfNoSpace(s: Bytes)
    requires NoSpace(s)
    ensures RemoveSpace(s) == s
  {
    if s != [] {
      RemoveSpaceOfNoSpace(s[1..]);
    }
  }

  /** Splitting on white space loses only the white space: the fields, put back
      together, are the non-space bytes of `s` in their order. */
  lemma {:induction false} FieldsKeepEveryNonSpace(s: Bytes)
    ensures Concat(Fields(s)) == RemoveSpace(s)
    decreases |s|
  {
    if s == [] {
    } else if IsSpace(s[0]) {
      FieldsKeepEveryNonSpace(s[1..]);
    } else {
      var n := TokenLength(s);
      assert s == s[..n] + s[n..];
      FieldsKeepEveryNonSpace(s[n..]);
      RemoveSpaceAppend(s[..n], s[n..]);
      RemoveSpaceOfNoSpace(s[..n]);
      assert ([s[..n]] + Fields(s[n..]))[1..] == Fields(s[n..]);
    }
  }

  /** A leading blank is skipped. */
  lemma FieldsSkipSpace(c: Byte, s: Bytes)
    requires IsSpace(c)
    ensures Fields([c] + s) == Fields(s)
  {
    assert ([c] + s)[1..] == s;
  }

  /** A run of non-space bytes followed by a blank or the end is one field. */
  lemma FieldsToken(t: Bytes, rest: Bytes)
    requires t != [] && NoSpace(t)
    requires rest == [] || IsSpace(rest[0])
    ensures Fields(t + rest) == [t] + Fields(rest)
  {
    var s := t + rest;
    var n := TokenLength(s);
    assert forall i :: 0 <= i < |t| ==> s[i] == t[i];
    assert |t| < |s| ==> s[|t|] == rest[0] && IsSpace(s[|t|]);
    assert n == |t|;
    assert s[..n] == t && s[n..] == rest;
  }

  // ---------------------------------------------------------------------------
  // strings.SplitN(line, ":", 2)

  /** `strings.SplitN(s, ":", 2)` when it yields two parts: the text before the first
      colon and the text after it. None when `s` has no colon (one part). */
  function CutColon(s: Bytes): (r: Option<(Bytes, Bytes)>)
    ensures r.None? <==> ':' !in s
    ensures r.Some? ==> s == r.value.0 + ":" + r.value.1 && ':' !in r.value.0
  {
    if s == [] then None
    else if s[0] == ':' then Some(([], s[1..]))
    else match CutColon(s[1..])
      case None => None
      case Some((k, v)) => Some(([s[0]] + k, v))
  }

  /** The split is at the first colon, so the value may itself hold colons. */
  lemma CutColonAtFirst(k: Bytes, v: Bytes)
    requires ':' !in k
    ensures CutColon(k + ":" + v) == Some((k, v))
  {
    var s := k + ":" + v;
    var r := CutColon(s);
    assert s[|k|] == ':';
    var k', v' := r.value.0, r.value.1;
    assert forall i :: 0 <= i < |k| ==> s[i] == k[i];
    assert forall i :: 0 <= i < |k'| ==> s[i] == k'[i];
    assert s[|k'|] == ':';
    assert |k'| == |k|;
    assert k' == s[..|k|] == k;
    assert v' == s[|k| + 1..] == v;
  }

  // ---------------------------------------------------------------------------
  // Decimal numbers: fmt's %d

  predicate IsDigit(c: Byte) {
    '0' <= c <= '9'
  }

  predicate AllDigits(s: Bytes) {
    forall i :: 0 <= i < |s| ==> IsDigit(s[i])
  }

  function DigitByte(d: nat): (c: Byte)
    requires d < 10
  {
    ('0' as int + d) as char
  }

  /** The number a string of decimal digits denotes. */
  function DigitsValue(s: Bytes): nat
    requires AllDigits(s)
  {
    if s == [] then 0 else DigitsValue(s[..|s| - 1]) * 10 + (s[|s| - 1] as int - '0' as int)
  }

  /** `fmt`'s `%d` for a non-negative number: decimal digits without leading zeros. */
  function Decimal(n: nat): (r: Bytes)
    ensures r != [] && AllDigits(r)
    ensures |r| > 1 ==> r[0] != '0'
  {
    if n < 10 then [DigitByte(n)] else Decimal(n / 10) + [DigitByte(n % 10)]
  }

  /** Printing a number and reading its digits back gives the number. */
  lemma {:induction false} DecimalRoundTrip(n: nat)
    ensures DigitsValue(Decimal(n)) == n
  {
    if n >= 10 {
      var s := Decimal(n);
      assert s[..|s| - 1] == Decimal(n / 10);
      DecimalRoundTrip(n / 10);
    }
  }

  /** The length of the run of decimal digits at the start of `s`. */
  function DigitRun(s: Bytes): (n: nat)
    ensures n <= |s| && AllDigits(s[..n])
    ensures n < |s| ==> !IsDigit(s[n])
  {
    if s == [] || !IsDigit(s[0]) then 0 else 1 + DigitRun(s[1..])
  }

  /** `fmt.Sscanf(v, "%d", &n)` into a 64-bit `int` that starts at 0: an optional sign,
      then the longest run of decimal digits. Without a digit, or when the number does
      not fit in 64 bits, the scan fails and `n` keeps its 0. */
  function ScanInt(v: Bytes): (n: int)
    ensures -MaxInt64 - 1 <= n <= MaxInt64
    ensures n < 0 ==> v != [] && v[0] == '-'
  {
    var signed := v != [] && (v[0] == '+' || v[0] == '-');
    var digits := if signed then v[1..] else v;
    var run := DigitRun(digits);
    if run == 0 then 0
    else
      var magnitude: int := DigitsValue(digits[..run]);
      if signed && v[0] == '-' then
        (if magnitude <= MaxInt64 + 1 then -magnitude else 0)
      else
        (if magnitude <= MaxInt64 then magnitude else 0)
  }

  /** A length printed with `%d` scans back to itself. */
  lemma ScanIntOfDecimal(n: nat)
    requires n <= MaxInt64
    ensures ScanInt(Decimal(n)) == n
  {
    var s := Decimal(n);
    var run := DigitRun(s);
    assert run == |s|;
    assert s[..run] == s;
    DecimalRoundTrip(n);
  }
}

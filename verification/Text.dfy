/** Python's strip, split, join and decimal numerals on strings, as far as the VLAN list needs them. */
module Text {
  import opened Basics

  /** str.isspace on one character. */
  predicate IsSpace(c: char) {
    || c == ' ' || '\t' <= c <= '\r' || 28 as char <= c <= 31 as char || c == 133 as char || c == 160 as char
    || c == 5760 as char || 8192 as char <= c <= 8202 as char || c == 8232 as char || c == 8233 as char
    || c == 8239 as char || c == 8287 as char || c == 12288 as char
  }

  predicate IsDigit(c: char) {
    '0' <= c <= '9'
  }

  function StripStart(s: string): (r: string)
    ensures |r| <= |s| && (r != "" ==> !IsSpace(r[0]))
  {
    if s != "" && IsSpace(s[0]) then StripStart(s[1..]) else s
  }

  function StripEnd(s: string): (r: string)
    ensures |r| <= |s| && r <= s && (r != "" ==> !IsSpace(r[|r| - 1]))
  {
    if s != "" && IsSpace(s[|s| - 1]) then StripEnd(s[..|s| - 1]) else s
  }

  function Strip(s: string): (r: string)
    ensures |r| <= |s| && (r != "" ==> !IsSpace(r[0]) && !IsSpace(r[|r| - 1]))
  {
    StripEnd(StripStart(s))
  }

  function LowerChar(c: char): char {
    if 'A' <= c <= 'Z' then (c as int + 32) as char else c
  }

  function Lower(s: string): (r: string)
    ensures |r| == |s|
  {
    seq(|s|, i requires 0 <= i < |s| => LowerChar(s[i]))
  }

  // ------------------------------------------------------------------ split and join

  /** s.split(','): one part more than there are commas. */
  function Split(s: string): (r: seq<string>)
    ensures |r| >= 1
  {
    if s == "" then [""]
    else
      var rest := Split(s[1..]);
      if s[0] == ',' then [""] + rest else [[s[0]] + rest[0]] + rest[1..]
  }

  function Join(parts: seq<string>): string
    requires |parts| >= 1
  {
    if |parts| == 1 then parts[0] else parts[0] + "," + Join(parts[1..])
  }

  /** The length of a comma-separated list. */
  function JoinedLength(parts: seq<string>): nat {
    if parts == [] then 0 else |parts[0]| + 1 + JoinedLength(parts[1..])
  }

  lemma {:induction false} SplitLength(s: string)
    ensures JoinedLength(Split(s)) == |s| + 1
    decreases |s|
  {
    if s != "" {
      SplitLength(s[1..]);
      var rest := Split(s[1..]);
      if s[0] == ',' {
        assert ([""] + rest)[1..] == rest;
      } else {
        assert ([[s[0]] + rest[0]] + rest[1..])[1..] == rest[1..];
      }
    }
  }

  lemma {:induction false} JoinLength(parts: seq<string>)
    requires |parts| >= 1
    ensures JoinedLength(parts) == |Join(parts)| + 1
    decreases |parts|
  {
    if |parts| > 1 {
      JoinLength(parts[1..]);
    }
  }

  lemma {:induction false} SplitNoComma(s: string)
    requires ',' !in s
    ensures Split(s) == [s]
    decreases |s|
  {
    if s != "" {
      SplitNoComma(s[1..]);
      assert [s[0]] + s[1..] == s;
    }
  }

  lemma {:induction false} SplitAtComma(s: string, t: string)
    requires ',' !in s
    ensures Split(s + "," + t) == [s] + Split(t)
    decreases |s|
  {
    var all := s + "," + t;
    if s == "" {
      assert all[1..] == t;
    } else {
      SplitAtComma(s[1..], t);
      assert all[1..] == s[1..] + "," + t;
      assert [s[0]] + s[1..] == s;
    }
  }

  /** Splitting undoes joining. */
  lemma {:induction false} SplitJoin(parts: seq<string>)
    requires |parts| >= 1 && forall i :: 0 <= i < |parts| ==> ',' !in parts[i]
    ensures Split(Join(parts)) == parts
    decreases |parts|
  {
    if |parts| == 1 {
      SplitNoComma(parts[0]);
    } else {
      SplitJoin(parts[1..]);
      SplitAtComma(parts[0], Join(parts[1..]));
      assert [parts[0]] + parts[1..] == parts;
    }
  }

  lemma {:induction false} JoinChars(parts: seq<string>, c: char)
    requires |parts| >= 1
    ensures c in Join(parts) ==> c == ',' || exists i :: 0 <= i < |parts| && c in parts[i]
    decreases |parts|
  {
    if |parts| > 1 && c in Join(parts) && c != ',' {
      JoinChars(parts[1..], c);
      if c !in parts[0] {
        assert c in Join(parts[1..]);
        var i :| 0 <= i < |parts[1..]| && c in parts[1..][i];
        assert c in parts[i + 1];
      }
    }
  }

  // ------------------------------------------------------------------ numerals

  predicate AllDigits(s: string) {
    forall i :: 0 <= i < |s| ==> IsDigit(s[i])
  }

  function Value(s: string): nat
    requires AllDigits(s)
  {
    if s == "" then 0 else Value(s[..|s| - 1]) * 10 + (s[|s| - 1] as int - '0' as int)
  }

  function Numeral(n: nat): (r: string)
    ensures |r| >= 1 && AllDigits(r)
  {
    var last := [('0' as int + n % 10) as char];
    if n < 10 then last else Numeral(n / 10) + last
  }

  lemma {:induction false} NumeralValue(n: nat)
    ensures Value(Numeral(n)) == n
  {
    var last := [('0' as int + n % 10) as char];
    if n < 10 {
      assert Numeral(n) == last && last[..0] == "";
    } else {
      NumeralValue(n / 10);
      assert (Numeral(n / 10) + last)[..|Numeral(n)| - 1] == Numeral(n / 10);
    }
  }

  /** The shortest numeral of a value is no longer than any other. */
  lemma {:induction false} NumeralShortest(s: string)
    requires s != "" && AllDigits(s)
    ensures |Numeral(Value(s))| <= |s|
    decreases |s|
  {
    var front := s[..|s| - 1];
    if Value(s) >= 10 {
      assert Value(s) / 10 == Value(front);
      if front != "" { NumeralShortest(front); }
    }
  }

  predicate StartsWithDigits(s: string, n: nat)
    requires n <= |s|
  {
    forall i :: 0 <= i < n ==> IsDigit(s[i])
  }

  /** How many digits the string starts with. */
  function DigitSpan(s: string): (n: nat)
    ensures n <= |s| && StartsWithDigits(s, n) && (n < |s| ==> !IsDigit(s[n]))
  {
    if s != "" && IsDigit(s[0]) then
      var n := DigitSpan(s[1..]);
      assert forall i :: 0 < i < n + 1 ==> s[i] == s[1..][i - 1];
      n + 1
    else 0
  }

  lemma {:induction false} SpanIs(s: string, n: nat)
    requires n <= |s| && StartsWithDigits(s, n) && (n < |s| ==> !IsDigit(s[n]))
    ensures DigitSpan(s) == n
    decreases |s|
  {
    if n > 0 {
      SpanIs(s[1..], n - 1);
    }
  }
}

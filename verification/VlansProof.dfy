/** What the normal form of a trunk list keeps, and why it is a normal form. */
module VlansProof {
  import opened Basics
  import opened Text
  import opened VlanRanges
  import opened Vlans

  // ------------------------------------------------------------------ grouping gives the canonical list

  predicate Increasing(s: seq<nat>) {
    forall i, j :: 0 <= i < j < |s| ==> s[i] < s[j]
  }

  lemma ExtendLast(rest: seq<Range>, last: Range, v: nat)
    requires Canonical(rest + [last]) && last.hi + 1 == v
    ensures Canonical(rest + [Range(last.lo, v)])
    ensures forall x :: Covered(rest + [Range(last.lo, v)], x) <==> Covered(rest + [last], x) || x == v
  {
    var before, after := rest + [last], rest + [Range(last.lo, v)];
    assert before[|rest|] == last;
    forall i | 0 <= i < |after|
      ensures after[i].lo <= after[i].hi
    {
      assert before[i].lo <= before[i].hi;
    }
    forall i, j | 0 <= i < j < |after|
      ensures after[i].hi + 1 < after[j].lo
    {
      assert before[i].hi + 1 < before[j].lo;
    }
    forall x: nat
      ensures Covered(after, x) <==> Covered(before, x) || x == v
    {
      CoveredSnoc(rest, Range(last.lo, v), x);
      CoveredSnoc(rest, last, x);
    }
  }

  lemma AppendRun(runs: seq<Range>, v: nat)
    requires Canonical(runs) && (runs != [] ==> runs[|runs| - 1].hi + 1 < v)
    ensures Canonical(runs + [Range(v, v)])
    ensures forall x :: Covered(runs + [Range(v, v)], x) <==> Covered(runs, x) || x == v
  {
    forall i | 0 <= i < |runs|
      ensures runs[i].hi + 1 < v
    {
      if i < |runs| - 1 { assert runs[i].hi + 1 < runs[|runs| - 1].lo; }
    }
    forall x: nat
      ensures Covered(runs + [Range(v, v)], x) <==> Covered(runs, x) || x == v
    {
      CoveredSnoc(runs, Range(v, v), x);
    }
  }

  lemma {:induction false} RunsCanonical(s: seq<nat>)
    requires Increasing(s)
    ensures Canonical(Runs(s)) && forall v :: Covered(Runs(s), v) <==> v in s
    ensures (s == [] <==> Runs(s) == []) && (s != [] ==> Runs(s)[|Runs(s)| - 1].hi == s[|s| - 1])
    decreases |s|
  {
    if s != [] {
      var front, v := s[..|s| - 1], s[|s| - 1];
      RunsCanonical(front);
      var runs := Runs(front);
      assert forall x :: x in s <==> x in front || x == v;
      if front != [] { assert front[|front| - 1] < v; }
      if runs != [] && runs[|runs| - 1].hi + 1 == v {
        var rest, last := runs[..|runs| - 1], runs[|runs| - 1];
        assert runs == rest + [last];
        ExtendLast(rest, last, v);
      } else {
        AppendRun(runs, v);
      }
    }
  }

  lemma GroupsCanonical(vlans: set<nat>)
    requires forall v :: v in vlans ==> 1 <= v <= MAX_VLAN
    ensures Canonical(Groups(vlans)) && forall v :: Covered(Groups(vlans), v) <==> v in vlans
    ensures forall i :: 0 <= i < |Groups(vlans)| ==> Valid(Groups(vlans)[i])
  {
    var groups := Groups(vlans);
    RunsCanonical(Sorted(vlans, MAX_VLAN));
    forall i | 0 <= i < |groups|
      ensures Valid(groups[i])
    {
      assert Covered(groups, groups[i].lo) && Covered(groups, groups[i].hi);
    }
  }

  /** The grouping loop and absorbing the ranges one by one give the same list. */
  lemma GroupsAreAbsorbed(ranges: seq<Range>)
    requires forall i :: 0 <= i < |ranges| ==> Valid(ranges[i])
    ensures Groups(VlansOf(ranges)) == AddAll(ranges)
    ensures forall v :: v in VlansOf(ranges) <==> Covered(ranges, v)
  {
    GroupsCanonical(VlansOf(ranges));
    AddAllCanonical(ranges);
    CanonicalUnique(Groups(VlansOf(ranges)), AddAll(ranges));
  }

  // ------------------------------------------------------------------ printing and parsing back

  predicate Plain(c: char) {
    IsDigit(c) || c == '-' || c == ','
  }

  lemma PrintRangeShape(r: Range)
    ensures var t := PrintRange(r);
            t != "" && IsDigit(t[0]) && IsDigit(t[|t| - 1]) && forall i :: 0 <= i < |t| ==> IsDigit(t[i]) || t[i] == '-'
  {
  }

  lemma StripKeeps(s: string)
    requires s != "" ==> !IsSpace(s[0]) && !IsSpace(s[|s| - 1])
    ensures Strip(s) == s
  {
  }

  lemma ParseSingle(a: string)
    requires a != "" && AllDigits(a)
    ensures ParseToken(a) == Some(Range(Value(a), Value(a)))
  {
    SpanIs(a, |a|);
  }

  lemma AfterPlainDash(b: string)
    requires b != "" && AllDigits(b)
    ensures AfterDash("-" + b) == Some(b)
  {
    var s := "-" + b;
    assert s[0] == '-' && s[1..] == b && IsDigit(b[0]);
  }

  lemma Halves(a: string, b: string)
    ensures (a + b)[..|a|] == a && (a + b)[|a|..] == b
  {
  }

  lemma PairSpan(a: string, rest: string)
    requires AllDigits(a) && rest != "" && !IsDigit(rest[0])
    ensures DigitSpan(a + rest) == |a|
  {
    SpanIs(a + rest, |a|);
  }

  lemma ParsePair(a: string, b: string)
    requires a != "" && AllDigits(a) && b != "" && AllDigits(b)
    ensures ParseToken(a + "-" + b) == Some(Range(Value(a), Value(b)))
  {
    var rest := "-" + b;
    assert a + "-" + b == a + rest;
    Halves(a, rest);
    PairSpan(a, rest);
    AfterPlainDash(b);
    SpanIs(b, |b|);
  }

  /** A printed range parses as itself. */
  lemma PrintRangeParses(r: Range)
    requires Valid(r)
    ensures TokenRange(PrintRange(r)) == Ok(r)
  {
    PrintRangeShape(r);
    StripKeeps(PrintRange(r));
    NumeralValue(r.lo);
    NumeralValue(r.hi);
    if r.lo == r.hi {
      ParseSingle(Numeral(r.lo));
    } else {
      ParsePair(Numeral(r.lo), Numeral(r.hi));
    }
  }

  function Tokens(groups: seq<Range>): seq<string> {
    seq(|groups|, i requires 0 <= i < |groups| => PrintRange(groups[i]))
  }

  lemma TokenRangesAppend(tokens: seq<string>, ranges: seq<Range>, token: string, r: Range)
    requires TokenRanges(tokens) == Ok(ranges) && TokenRange(token) == Ok(r)
    ensures TokenRanges(tokens + [token]) == Ok(ranges + [r])
  {
    assert (tokens + [token])[..|tokens|] == tokens;
  }

  lemma TokensAppend(groups: seq<Range>, r: Range)
    ensures Tokens(groups + [r]) == Tokens(groups) + [PrintRange(r)]
  {
  }

  lemma {:induction false} TokensParse(groups: seq<Range>)
    requires forall i :: 0 <= i < |groups| ==> Valid(groups[i])
    ensures TokenRanges(Tokens(groups)) == Ok(groups)
    decreases |groups|
  {
    if groups != [] {
      var front, last := groups[..|groups| - 1], groups[|groups| - 1];
      assert groups == front + [last];
      TokensParse(front);
      PrintRangeParses(last);
      TokensAppend(front, last);
      TokenRangesAppend(Tokens(front), front, PrintRange(last), last);
    }
  }

  lemma PrintShape(groups: seq<Range>)
    requires groups != []
    ensures var out := Print(groups);
            && out == Join(Tokens(groups)) && out != "" && IsDigit(out[0]) && IsDigit(out[|out| - 1])
            && forall i :: 0 <= i < |out| ==> Plain(out[i])
    decreases |groups|
  {
    var out := Print(groups);
    forall i | 0 <= i < |out|
      ensures Plain(out[i])
    {
      JoinChars(Tokens(groups), out[i]);
      if out[i] != ',' {
        var k :| 0 <= k < |groups| && out[i] in Tokens(groups)[k];
        PrintRangeShape(groups[k]);
      }
    }
    JoinEnds(Tokens(groups));
    PrintRangeShape(groups[0]);
    PrintRangeShape(groups[|groups| - 1]);
  }

  lemma {:induction false} JoinEnds(parts: seq<string>)
    requires |parts| >= 1 && forall i :: 0 <= i < |parts| ==> parts[i] != ""
    ensures var out := Join(parts);
            out != "" && out[0] == parts[0][0] && out[|out| - 1] == parts[|parts| - 1][|parts[|parts| - 1]| - 1]
    decreases |parts|
  {
    if |parts| > 1 { JoinEnds(parts[1..]); }
  }

  lemma LowerKeeps(s: string)
    requires forall i :: 0 <= i < |s| ==> Plain(s[i])
    ensures Lower(s) == s
  {
  }

  /** Parsing the printed list gives exactly the ranges printed. */
  lemma PrintParses(groups: seq<Range>)
    requires groups != [] && forall i :: 0 <= i < |groups| ==> Valid(groups[i])
    ensures Lower(Strip(Print(groups))) == Print(groups) && Print(groups) != "" && Print(groups) != "all"
    ensures TokenRanges(Split(Print(groups))) == Ok(groups)
  {
    PrintShape(groups);
    StripKeeps(Print(groups));
    LowerKeeps(Print(groups));
    forall i | 0 <= i < |groups|
      ensures ',' !in Tokens(groups)[i]
    {
      PrintRangeShape(groups[i]);
    }
    SplitJoin(Tokens(groups));
    TokensParse(groups);
  }

  // ------------------------------------------------------------------ the length bound

  lemma TokenIsNoShorter(token: string)
    requires TokenRange(token).Ok?
    ensures |PrintRange(TokenRange(token).value)| <= |token|
  {
    var t := Strip(token);
    var n := DigitSpan(t);
    if n == |t| {
      NumeralShortest(t);
    } else {
      var tail := AfterDash(t[n..]).value;
      NumeralShortest(t[..n]);
      NumeralShortest(tail);
    }
  }

  lemma {:induction false} WeightBound(tokens: seq<string>, ranges: seq<Range>)
    requires |tokens| == |ranges| && forall i :: 0 <= i < |tokens| ==> TokenRange(tokens[i]) == Ok(ranges[i])
    ensures Weight(ranges) <= JoinedLength(tokens)
    decreases |tokens|
  {
    if tokens != [] {
      TokenIsNoShorter(tokens[0]);
      WeightBound(tokens[1..], ranges[1..]);
    }
  }

  lemma {:induction false} TokensWeight(groups: seq<Range>)
    ensures JoinedLength(Tokens(groups)) == Weight(groups)
    decreases |groups|
  {
    if groups != [] {
      TokensWeight(groups[1..]);
      assert Tokens(groups)[1..] == Tokens(groups[1..]);
    }
  }

  lemma PrintLength(groups: seq<Range>)
    requires groups != []
    ensures |Print(groups)| + 1 == Weight(groups)
  {
    TokensWeight(groups);
    JoinLength(Tokens(groups));
  }

  // ------------------------------------------------------------------ the normal form

  /** The ranges an accepted list denotes. */
  function Ranges(value: string): Result<seq<Range>, Refusal> {
    TokenRanges(Split(Lower(Strip(value))))
  }

  predicate IsList(value: string) {
    Strip(value) != "" && Lower(Strip(value)) != "all" && |Strip(value)| <= MAX_LENGTH && Ranges(value).Ok?
  }

  lemma GroupsOfRanges(ranges: seq<Range>)
    requires ranges != [] && forall i :: 0 <= i < |ranges| ==> Valid(ranges[i])
    ensures var groups := Groups(VlansOf(ranges));
            && groups != [] && Canonical(groups) && (forall i :: 0 <= i < |groups| ==> Valid(groups[i]))
            && VlansOf(groups) == VlansOf(ranges) && Weight(groups) <= Weight(ranges)
  {
    GroupsAreAbsorbed(ranges);
    GroupsCanonical(VlansOf(ranges));
    AddAllCanonical(ranges);
    assert Covered(ranges, ranges[0].lo);
    assert Covered(Groups(VlansOf(ranges)), ranges[0].lo);
    GroupsAreAbsorbed(Groups(VlansOf(ranges)));
  }

  lemma ListIsGrouped(value: string)
    requires IsList(value)
    ensures var ranges := Ranges(value).value;
            && ranges != [] && (forall i :: 0 <= i < |ranges| ==> Valid(ranges[i]))
            && Normalized(Some(value)) == Ok(Some(Print(Groups(VlansOf(ranges)))))
            && Weight(ranges) <= |Strip(value)| + 1
  {
    var text := Lower(Strip(value));
    SplitLength(text);
    WeightBound(Split(text), Ranges(value).value);
  }

  /** A printed canonical list is stored as it is. */
  lemma PrintIsNormal(groups: seq<Range>)
    requires groups != [] && Canonical(groups) && forall i :: 0 <= i < |groups| ==> Valid(groups[i])
    requires |Print(groups)| <= MAX_LENGTH
    ensures IsList(Print(groups)) && Ranges(Print(groups)) == Ok(groups)
    ensures Normalized(Some(Print(groups))) == Ok(Some(Print(groups)))
  {
    PrintParses(groups);
    GroupsOfRanges(groups);
    GroupsAreAbsorbed(groups);
    GroupsCanonical(VlansOf(groups));
    CanonicalUnique(Groups(VlansOf(groups)), groups);
  }

  /**
    The text stored for an accepted list denotes the same VLANs, parses back to exactly the maximal,
    ascending, non-adjacent ranges it shows, is stored unchanged when it is entered again, and is never
    longer than what was entered, so it always fits the length limit itself.
   */
  lemma NormalForm(value: string)
    requires IsList(value)
    ensures Normalized(Some(value)).Ok? && Normalized(Some(value)).value.Some?
    ensures var out := Normalized(Some(value)).value.value;
            && Ranges(out).Ok? && Canonical(Ranges(out).value) && out == Print(Ranges(out).value)
            && VlansOf(Ranges(out).value) == VlansOf(Ranges(value).value)
            && |out| <= |Strip(value)|
            && IsList(out) && Normalized(Some(out)) == Ok(Some(out))
  {
    var ranges := Ranges(value).value;
    var groups := Groups(VlansOf(ranges));
    ListIsGrouped(value);
    GroupsOfRanges(ranges);
    PrintLength(groups);
    PrintIsNormal(groups);
  }

  /** Lists, the word all in any case, and the empty setting are what is accepted. */
  lemma AcceptedIff(value: string)
    ensures Normalized(Some(value)).Ok? <==> IsList(value) || Strip(value) == "" || Lower(Strip(value)) == "all"
    ensures Normalized(Some(value)) == Ok(Some("all")) <==> Lower(Strip(value)) == "all"
  {
    if IsList(value) {
      ListIsGrouped(value);
      GroupsOfRanges(Ranges(value).value);
      PrintParses(Groups(VlansOf(Ranges(value).value)));
    }
  }

  /** Lists are stored as the same text exactly when they denote the same VLANs. */
  lemma EqualSetsEqualText(a: string, b: string)
    requires IsList(a) && IsList(b)
    ensures VlansOf(Ranges(a).value) == VlansOf(Ranges(b).value) <==> Normalized(Some(a)) == Normalized(Some(b))
  {
    NormalForm(a);
    NormalForm(b);
    ListIsGrouped(a);
    ListIsGrouped(b);
  }
}

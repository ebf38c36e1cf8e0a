/**
  normalize_trunk (server/device_visualization/vlans.py): the list of VLANs allowed on a trunk port,
  parsed and printed in normal form.
 */
module Vlans {
  import opened Basics
  import opened Text
  import opened VlanRanges

  const MAX_LENGTH: nat := 2000

  datatype Refusal = TooLong | BadToken | OutOfRange

  // ------------------------------------------------------------------ one token

  /** What follows a dash that may have spaces around it. */
  function AfterDash(s: string): Option<string> {
    var dash := StripStart(s);
    if dash == "" || dash[0] != '-' then None else Some(StripStart(dash[1..]))
  }

  /** The shape [0-9]+(?:\\s*-\\s*[0-9]+)? as its two numbers. */
  function ParseToken(token: string): Option<Range> {
    var n := DigitSpan(token);
    if n == 0 then None
    else if n == |token| then Some(Range(Value(token), Value(token)))
    else
      var tail := AfterDash(token[n..]);
      if tail.None? || tail.value == "" || DigitSpan(tail.value) != |tail.value| then None
      else Some(Range(Value(token[..n]), Value(tail.value)))
  }

  function TokenRange(token: string): Result<Range, Refusal> {
    match ParseToken(Strip(token))
    case None => Err(BadToken)
    case Some(r) => if Valid(r) then Ok(r) else Err(OutOfRange)
  }

  /** The ranges of the tokens, or the first refusal. */
  function TokenRanges(tokens: seq<string>): (r: Result<seq<Range>, Refusal>)
    ensures r.Ok? ==> |r.value| == |tokens| && forall i :: 0 <= i < |tokens| ==> TokenRange(tokens[i]) == Ok(r.value[i]) && Valid(r.value[i])
    decreases |tokens|
  {
    if tokens == [] then Ok([])
    else
      match TokenRanges(tokens[..|tokens| - 1])
      case Err(why) => Err(why)
      case Ok(ranges) =>
        match TokenRange(tokens[|tokens| - 1])
        case Err(why) => Err(why)
        case Ok(r) => Ok(ranges + [r])
  }

  // ------------------------------------------------------------------ grouping

  function VlansOf(ranges: seq<Range>): set<nat> {
    set v | 1 <= v <= MAX_VLAN && Covered(ranges, v)
  }

  /** sorted(vlans). */
  function Sorted(vlans: set<nat>, limit: nat): (r: seq<nat>)
    ensures forall i, j :: 0 <= i < j < |r| ==> r[i] < r[j]
    ensures forall v :: v in r <==> v in vlans && 1 <= v <= limit
  {
    if limit == 0 then []
    else
      var front := Sorted(vlans, limit - 1);
      assert forall i :: 0 <= i < |front| ==> front[i] in front;
      if limit in vlans then front + [limit] else front
  }

  /** Runs of consecutive VLANs: the last run is extended or a new one begins. */
  function Runs(sorted: seq<nat>): seq<Range> {
    if sorted == [] then []
    else
      var runs, v := Runs(sorted[..|sorted| - 1]), sorted[|sorted| - 1];
      if runs != [] && runs[|runs| - 1].hi + 1 == v then runs[..|runs| - 1] + [Range(runs[|runs| - 1].lo, v)]
      else runs + [Range(v, v)]
  }

  function Groups(vlans: set<nat>): seq<Range> {
    Runs(Sorted(vlans, MAX_VLAN))
  }

  function Print(groups: seq<Range>): string {
    if groups == [] then "" else Join(seq(|groups|, i requires 0 <= i < |groups| => PrintRange(groups[i])))
  }

  /** What the loops of normalize_trunk compute; None is the empty setting. */
  function Normalized(value: Option<string>): Result<Option<string>, Refusal> {
    if value.None? then Ok(None)
    else
      var text := Lower(Strip(value.value));
      if text == "" then Ok(None)
      else if text == "all" then Ok(Some("all"))
      else if |text| > MAX_LENGTH then Err(TooLong)
      else
        match TokenRanges(Split(text))
        case Err(why) => Err(why)
        case Ok(ranges) => Ok(Some(Print(Groups(VlansOf(ranges)))))
  }

  // ------------------------------------------------------------------ the loops

  lemma VlansOfSnoc(ranges: seq<Range>, r: Range)
    requires Valid(r)
    ensures VlansOf(ranges + [r]) == VlansOf(ranges) + Members(r)
  {
    forall v: nat
      ensures Covered(ranges + [r], v) <==> Covered(ranges, v) || InRange(r, v)
    {
      CoveredSnoc(ranges, r, v);
    }
  }

  /** The first refusal is the answer for the whole list. */
  lemma {:induction false} TokenRangesStop(tokens: seq<string>, i: nat)
    requires i <= |tokens| && TokenRanges(tokens[..i]).Err?
    ensures TokenRanges(tokens) == TokenRanges(tokens[..i])
    decreases |tokens|
  {
    if i == |tokens| {
      assert tokens[..i] == tokens;
    } else {
      var front := tokens[..|tokens| - 1];
      assert front[..i] == tokens[..i];
      TokenRangesStop(front, i);
    }
  }

  method ParseList(text: string) returns (r: Result<set<nat>, Refusal>)
    ensures match TokenRanges(Split(text)) case Err(why) => r == Err(why) case Ok(ranges) => r == Ok(VlansOf(ranges))
  {
    var tokens := Split(text);
    var vlans: set<nat> := {};
    ghost var ranges: seq<Range> := [];
    for i := 0 to |tokens|
      invariant TokenRanges(tokens[..i]) == Ok(ranges) && vlans == VlansOf(ranges)
    {
      assert tokens[..i + 1][..i] == tokens[..i];
      match TokenRange(tokens[i]) {
        case Err(why) =>
          TokenRangesStop(tokens, i + 1);
          return Err(why);
        case Ok(range) =>
          VlansOfSnoc(ranges, range);
          vlans := vlans + Members(range);
          ranges := ranges + [range];
      }
    }
    assert tokens[..|tokens|] == tokens;
    r := Ok(vlans);
  }

  method GroupVlans(vlans: set<nat>) returns (groups: seq<Range>)
    ensures groups == Groups(vlans)
  {
    var sorted := Sorted(vlans, MAX_VLAN);
    groups := [];
    for i := 0 to |sorted|
      invariant groups == Runs(sorted[..i])
    {
      assert sorted[..i + 1][..i] == sorted[..i];
      var v := sorted[i];
      if groups != [] && v == groups[|groups| - 1].hi + 1 {
        groups := groups[|groups| - 1 := Range(groups[|groups| - 1].lo, v)];
        assert groups == groups[..|groups| - 1] + [groups[|groups| - 1]];
      } else {
        groups := groups + [Range(v, v)];
      }
    }
    assert sorted[..|sorted|] == sorted;
  }

  method NormalizeTrunk(value: Option<string>) returns (r: Result<Option<string>, Refusal>)
    ensures r == Normalized(value)
  {
    if value.None? {
      return Ok(None);
    }
    var text := Lower(Strip(value.value));
    if text == "" {
      return Ok(None);
    }
    if text == "all" {
      return Ok(Some("all"));
    }
    if |text| > MAX_LENGTH {
      return Err(TooLong);
    }
    var vlans := ParseList(text);
    if vlans.Err? {
      return Err(vlans.error);
    }
    var groups := GroupVlans(vlans.value);
    r := Ok(Some(Print(groups)));
  }
}

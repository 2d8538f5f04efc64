/** Positional redistribution (`applyPositional`, lib/arg-parser.js): after
    the token loop, declared required and optional names take their values
    from the positional tokens left over. */
module Positional {
  import opened Values

  function Max(a: int, b: int): int { if a >= b then a else b }

  function Min(a: int, b: int): int { if a <= b then a else b }

  /** The required names from index `i` on, one `forEach` step at a time:
      fail on an empty token list; before the optional insertion index (or
      with no optional names) take the front token; from it on take the token
      at `max(0, length - |req| + i)`. */
  function RequiredFrom(req: seq<string>, iopts: Option<nat>, i: nat, pos: seq<string>, named: map<string, Value>)
    : (r: Outcome<Parsed>)
    requires i <= |req|
    decreases |req| - i
    ensures r.Ok? ==> |r.value.positional| == |pos| - (|req| - i)
    ensures r.Ok? ==> named.Keys <= r.value.named.Keys && forall j :: i <= j < |req| ==> req[j] in r.value.named
    ensures r.Fail? ==> r.error.MissingArgument? && r.error.name in req[i..]
  {
    if i == |req| then Ok(Parsed(pos, named))
    else if pos == [] then Fail(MissingArgument(req[i]))
    else if iopts.None? || i < iopts.value then
      RequiredFrom(req, iopts, i + 1, pos[1..], named[req[i] := Str(pos[0])])
    else
      var offset := Max(0, |pos| - |req| + i);
      RequiredFrom(req, iopts, i + 1, pos[..offset] + pos[offset + 1..], named[req[i] := Str(pos[offset])])
  }

  /** The optional names from index `j` on: each takes the front token while
      any is left, and otherwise keeps the value it had. */
  function OptionalFrom(opt: seq<string>, j: nat, pos: seq<string>, named: map<string, Value>): (r: Parsed)
    requires j <= |opt|
    decreases |opt| - j
    ensures |r.positional| == |pos| - Min(|opt| - j, |pos|)
    ensures named.Keys <= r.named.Keys
  {
    if j == |opt| then Parsed(pos, named)
    else if |pos| > 0 then OptionalFrom(opt, j + 1, pos[1..], named[opt[j] := Str(pos[0])])
    else OptionalFrom(opt, j + 1, pos, named)
  }

  /** `applyPositional`: the required names in order, then the optional ones. */
  function Assign(req: seq<string>, opt: seq<string>, iopts: Option<nat>, pos: seq<string>, named: map<string, Value>)
    : (r: Outcome<Parsed>)
    ensures r.Fail? ==> r.error.MissingArgument? && r.error.name in req
    ensures r.Ok? ==> named.Keys <= r.value.named.Keys && forall j :: 0 <= j < |req| ==> req[j] in r.value.named
  {
    match RequiredFrom(req, iopts, 0, pos, named)
    case Fail(e) => Fail(e)
    case Ok(p) => Ok(OptionalFrom(opt, 0, p.positional, p.named))
  }

  /** How many required names take their token from the front. */
  function FrontCount(req: seq<string>, iopts: Option<nat>): nat
  {
    if iopts.None? then |req| else Min(iopts.value, |req|)
  }

  /** The same assignment stated in one piece: with fewer tokens than required
      names the first name without a token is reported; otherwise, with k names
      before the optional insertion index and d spare tokens, the first k
      required names take the first k tokens, the remaining required names take
      the last tokens, the optional names take the tokens after the first k in
      order as far as the d spare ones reach, and what the optional names
      leave of the spare tokens stays positional. */
  function ClosedForm(req: seq<string>, opt: seq<string>, iopts: Option<nat>, pos: seq<string>, named: map<string, Value>)
    : (r: Outcome<Parsed>)
    ensures r.Fail? <==> |pos| < |req|
    ensures r.Ok? ==> |r.value.positional| == |pos| - |req| - Min(|opt|, |pos| - |req|)
  {
    if |pos| < |req| then Fail(MissingArgument(req[|pos|]))
    else
      var k := FrontCount(req, iopts);
      var d := |pos| - |req|;
      var n := Min(|opt|, d);
      var front := AssignEach(named, req[..k], pos[..k]);
      var back := AssignEach(front, req[k..], pos[k + d..]);
      Ok(Parsed(pos[k + n..k + d], AssignEach(back, opt[..n], pos[k..k + n])))
  }

  /** Too few tokens: the name reported is the first one the tokens do not reach. */
  lemma {:induction false} RequiredShort(req: seq<string>, iopts: Option<nat>, i: nat, pos: seq<string>, named: map<string, Value>)
    requires i + |pos| < |req|
    ensures RequiredFrom(req, iopts, i, pos, named) == Fail(MissingArgument(req[i + |pos|]))
    decreases |pos|
  {
    if pos != [] {
      var offset := Max(0, |pos| - |req| + i);
      assert offset == 0 && pos[..offset] + pos[offset + 1..] == pos[1..];
      RequiredShort(req, iopts, i + 1, pos[1..], named[req[i] := Str(pos[0])]);
    }
  }

  /** From the insertion index on, with d spare tokens ahead of the |req| - i
      still needed, each required name takes the token just after the spare
      ones, so the spare ones are what is left. */
  lemma {:induction false} RequiredTail(req: seq<string>, iopts: Option<nat>, i: nat, spare: seq<string>, tail: seq<string>,
                                        named: map<string, Value>)
    requires i <= |req| && |tail| == |req| - i
    requires iopts.Some? && iopts.value <= i
    ensures RequiredFrom(req, iopts, i, spare + tail, named) == Ok(Parsed(spare, AssignEach(named, req[i..], tail)))
    decreases |req| - i
  {
    if i < |req| {
      var pos := spare + tail;
      var offset := Max(0, |pos| - |req| + i);
      assert offset == |spare|;
      assert pos[offset] == tail[0];
      assert pos[..offset] + pos[offset + 1..] == spare + tail[1..];
      RequiredTail(req, iopts, i + 1, spare, tail[1..], named[req[i] := Str(tail[0])]);
      assert req[i..][1..] == req[i + 1..];
    } else {
      assert spare + tail == spare;
    }
  }

  /** Before the insertion index each required name takes the front token. */
  lemma {:induction false} RequiredFront(req: seq<string>, iopts: Option<nat>, i: nat, pos: seq<string>, named: map<string, Value>)
    requires i <= FrontCount(req, iopts) && |pos| >= |req| - i
    ensures var k := FrontCount(req, iopts);
            RequiredFrom(req, iopts, i, pos, named)
            == RequiredFrom(req, iopts, k, pos[k - i..], AssignEach(named, req[i..k], pos[..k - i]))
    decreases |req| - i
  {
    var k := FrontCount(req, iopts);
    if i < k {
      RequiredFront(req, iopts, i + 1, pos[1..], named[req[i] := Str(pos[0])]);
      assert req[i..k][1..] == req[i + 1..k];
      assert pos[..k - i][1..] == pos[1..][..k - (i + 1)];
      assert pos[1..][k - (i + 1)..] == pos[k - i..];
    } else {
      assert pos[..0] == [] && pos[0..] == pos;
    }
  }

  /** Each optional name takes the front token while any is left. */
  lemma {:induction false} OptionalPrefix(opt: seq<string>, j: nat, pos: seq<string>, named: map<string, Value>)
    requires j <= |opt|
    ensures var n := Min(|opt| - j, |pos|);
            OptionalFrom(opt, j, pos, named) == Parsed(pos[n..], AssignEach(named, opt[j..j + n], pos[..n]))
    decreases |opt| - j
  {
    var n := Min(|opt| - j, |pos|);
    if j == |opt| {
      assert pos[0..] == pos;
    } else if |pos| > 0 {
      var named' := named[opt[j] := Str(pos[0])];
      OptionalPrefix(opt, j + 1, pos[1..], named');
      var names, vals := opt[j..j + n], pos[..n];
      AssignEachStep(named, names, vals);
      assert names[0] == opt[j] && vals[0] == pos[0];
      assert names[1..] == opt[j + 1..j + 1 + (n - 1)];
      assert vals[1..] == pos[1..][..n - 1];
      assert pos[1..][n - 1..] == pos[n..];
    } else {
      OptionalPrefix(opt, j + 1, pos, named);
    }
  }

  /** With enough tokens, the required names take the first k tokens and the
      last |req| - k ones, leaving the spare ones in between. */
  lemma RequiredAll(req: seq<string>, iopts: Option<nat>, pos: seq<string>, named: map<string, Value>)
    requires |pos| >= |req|
    ensures var k, d := FrontCount(req, iopts), |pos| - |req|;
            RequiredFrom(req, iopts, 0, pos, named)
            == Ok(Parsed(pos[k..k + d], AssignEach(AssignEach(named, req[..k], pos[..k]), req[k..], pos[k + d..])))
  {
    var k, d := FrontCount(req, iopts), |pos| - |req|;
    var front := AssignEach(named, req[..k], pos[..k]);
    assert req[0..k] == req[..k] && pos[k - 0..] == pos[k..] && pos[..k - 0] == pos[..k];
    if k < |req| {
      assert pos[k..k + d] + pos[k + d..] == pos[k..];
      RequiredFront(req, iopts, 0, pos, named);
      RequiredTail(req, iopts, k, pos[k..k + d], pos[k + d..], front);
    } else {
      assert req[k..] == [] && pos[k + d..] == [];
      assert AssignEach(front, req[k..], pos[k + d..]) == front;
      assert pos[k..] == pos[k..k + d];
      RequiredFront(req, iopts, 0, pos, named);
    }
  }

  /** The optional names applied to the spare tokens in the middle of `pos`. */
  lemma OptionalMiddle(opt: seq<string>, pos: seq<string>, k: nat, d: nat, named: map<string, Value>)
    requires k + d <= |pos|
    ensures var n := Min(|opt|, d);
            OptionalFrom(opt, 0, pos[k..k + d], named) == Parsed(pos[k + n..k + d], AssignEach(named, opt[..n], pos[k..k + n]))
  {
    var n := Min(|opt|, d);
    var spare := pos[k..k + d];
    assert opt[0..0 + n] == opt[..n];
    assert spare[..n] == pos[k..k + n];
    assert spare[n..] == pos[k + n..k + d];
    OptionalPrefix(opt, 0, spare, named);
  }

  /** The step-by-step redistribution and the closed form agree on every input. */
  lemma AssignMatchesClosedForm(req: seq<string>, opt: seq<string>, iopts: Option<nat>, pos: seq<string>, named: map<string, Value>)
    ensures Assign(req, opt, iopts, pos, named) == ClosedForm(req, opt, iopts, pos, named)
  {
    if |pos| < |req| {
      RequiredShort(req, iopts, 0, pos, named);
    } else {
      var k, d := FrontCount(req, iopts), |pos| - |req|;
      var back := AssignEach(AssignEach(named, req[..k], pos[..k]), req[k..], pos[k + d..]);
      RequiredAll(req, iopts, pos, named);
      OptionalMiddle(opt, pos, k, d, back);
    }
  }

  /** Every required name takes exactly one token, and an optional name one
      while any is left: parsing fails exactly when there are fewer tokens
      than required names, and otherwise leaves |pos| - |req| - min(|opt|,
      |pos| - |req|) of them positional. */
  lemma AssignCounts(req: seq<string>, opt: seq<string>, iopts: Option<nat>, pos: seq<string>, named: map<string, Value>)
    ensures Assign(req, opt, iopts, pos, named).Fail? <==> |pos| < |req|
    ensures |pos| < |req| ==> Assign(req, opt, iopts, pos, named) == Fail(MissingArgument(req[|pos|]))
    ensures |pos| >= |req| ==>
              |Assign(req, opt, iopts, pos, named).value.positional| == |pos| - |req| - Min(|opt|, |pos| - |req|)
  {
    AssignMatchesClosedForm(req, opt, iopts, pos, named);
  }
}

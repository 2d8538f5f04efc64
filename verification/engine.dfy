/** What one parse does, as functions: the built-in handlers of
    lib/arg-parser.js as steps on (pending tokens, positional tokens, named
    values), the token loop of `parse`, and the lemmas about them. */
module Engine {
  import opened Values
  import opened Rules
  import Positional

  /** Everything the builder calls of a parser have recorded. */
  datatype Declarations = Declarations(
    rules: seq<Rule>,
    required: seq<string>,
    optional: seq<string>,
    iopts: Option<nat>,
    defaults: map<string, Value>,
    needsArg: seq<string>)

  predicate WellFormed(rules: seq<Rule>)
  {
    forall i :: 0 <= i < |rules| ==> ValidRule(rules[i])
  }

  /** The tokens still to be read, the positional tokens so far, the named values so far. */
  datatype State = State(pending: seq<string>, positional: seq<string>, named: map<string, Value>)

  // ---------------------------------------------------------------------
  // The termination measure: the sum of 3^|t| over the pending tokens.

  function Pow3(n: nat): (r: nat)
    ensures r >= 1
  {
    if n == 0 then 1 else 3 * Pow3(n - 1)
  }

  function Measure(s: seq<string>): nat
  {
    if s == [] then 0 else Pow3(|s[0]|) + Measure(s[1..])
  }

  lemma {:induction false} MeasureDrop(s: seq<string>, j: nat)
    requires j <= |s|
    ensures Measure(s[j..]) <= Measure(s)
    decreases j
  {
    if j > 0 {
      MeasureDrop(s[1..], j - 1);
      assert s[1..][j - 1..] == s[j..];
    }
  }

  lemma {:induction false} Pow3Monotone(a: nat, b: nat)
    requires a <= b
    ensures Pow3(a) <= Pow3(b)
    decreases b
  {
    if a < b {
      Pow3Monotone(a, b - 1);
    }
  }

  /** Splitting a token of length n >= 3 into a two-character token and a
      token of length n - 1 or n - 2 lowers its share of the measure. */
  lemma ShortSplitShrinks(n: nat, m: nat)
    requires n >= 3 && n - 2 <= m <= n - 1
    ensures Pow3(2) + Pow3(m) < Pow3(n)
  {
    Pow3Monotone(m, n - 1);
    Pow3Monotone(2, n - 1);
  }

  // ---------------------------------------------------------------------
  // JavaScript coercions the handlers rely on.

  /** `Array.prototype.join(",")`. */
  function Join(items: seq<string>): string
  {
    if items == [] then ""
    else if |items| == 1 then items[0]
    else items[0] + "," + Join(items[1..])
  }

  /** `(named[name] || 0) + 1`: a falsy value counts as 0, a number goes up
      by one, `true` counts as 1, and a truthy string or an array is turned
      into a string that "1" is appended to. */
  function CountNext(v: Option<Value>): (r: Value)
    ensures v.Some? && v.value.Int? ==> r == Int(v.value.n + 1)
    ensures r.Str? <==> v.Some? && ((v.value.Str? && v.value.s != "") || v.value.List?)
  {
    if Falsy(v) then Int(1)
    else match v.value
      case Int(n) => Int(n + 1)
      case Bool(_) => Int(2)
      case Str(s) => Str(s + "1")
      case List(items) => Str(Join(items) + "1")
  }

  /** `(named[name] || []).slice()`, before the push: a falsy value counts as
      the empty list, an array is copied, and anything else makes `.slice`
      (booleans, numbers) or the `push` after it (strings) throw (None). */
  function ListBase(v: Option<Value>): (r: Option<seq<string>>)
    ensures r.Some? <==> Falsy(v) || v.value.List?
    ensures r.Some? && v.Some? && v.value.List? ==> r.value == v.value.items
    ensures r.Some? && Falsy(v) ==> r.value == []
  {
    if Falsy(v) then Some([])
    else match v.value
      case List(items) => Some(items)
      case _ => None
  }

  // ---------------------------------------------------------------------
  // The built-in handlers, as steps. Each receives the state after its own
  // token was taken off the pending list.

  /** `option(...)`: the next token, unless it is missing or some rule claims
      it, becomes the value of every alias. */
  function OptionStep(rules: seq<Rule>, name: string, aliases: seq<string>, st: State): (r: Outcome<State>)
    ensures r.Fail? ==> r.error == MissingValue(name)
    ensures r.Ok? ==> st.pending != [] && r.value.pending == st.pending[1..]
    ensures r.Ok? ==> r.value.positional == st.positional && st.named.Keys <= r.value.named.Keys
  {
    if st.pending == [] || Match(rules, st.pending[0]).Some? then Fail(MissingValue(name))
    else Ok(State(st.pending[1..], st.positional, Assigned(st.named, aliases, Str(st.pending[0]))))
  }

  /** `flag(...)`: every alias becomes true. */
  function FlagStep(aliases: seq<string>, st: State): (r: Outcome<State>)
    ensures r.Ok? && r.value.pending == st.pending && r.value.positional == st.positional
    ensures r.Ok? ==> r.value.named.Keys == st.named.Keys + set a | a in aliases
  {
    Ok(State(st.pending, st.positional, Assigned(st.named, aliases, Bool(true))))
  }

  /** `count(...)`: every alias becomes the matched name's count plus one. */
  function CountStep(name: string, aliases: seq<string>, st: State): (r: Outcome<State>)
    ensures r.Ok? && r.value.pending == st.pending && r.value.positional == st.positional
    ensures r.Ok? ==> r.value.named.Keys == st.named.Keys + set a | a in aliases
  {
    Ok(State(st.pending, st.positional, Assigned(st.named, aliases, CountNext(Lookup(st.named, name)))))
  }

  /** `list(...)`: like an option, but every alias becomes a copy of the
      matched name's list with the next token appended. */
  function ListStep(rules: seq<Rule>, name: string, aliases: seq<string>, st: State): (r: Outcome<State>)
    ensures r.Fail? ==> r.error == MissingValue(name) || r.error == NotAList(name)
    ensures r.Ok? ==> st.pending != [] && r.value.pending == st.pending[1..]
    ensures r.Ok? ==> r.value.positional == st.positional && st.named.Keys <= r.value.named.Keys
  {
    if st.pending == [] || Match(rules, st.pending[0]).Some? then Fail(MissingValue(name))
    else match ListBase(Lookup(st.named, name))
      case None => Fail(NotAList(name))
      case Some(items) => Ok(State(st.pending[1..], st.positional, Assigned(st.named, aliases, List(items + [st.pending[0]]))))
  }

  /** `shortOpts()`: a two-character token is set to true; a longer one is put
      back as its first two characters followed by the rest, the rest with a
      dash in front unless the first two characters name an option that
      takes a value. */
  function ShortOptsStep(needsArg: seq<string>, arg: string, st: State): (r: Outcome<State>)
    requires |arg| >= 2
    ensures r.Ok? && r.value.positional == st.positional && st.named.Keys <= r.value.named.Keys
    ensures |arg| > 2 ==>
              && r.value.named == st.named && |r.value.pending| == |st.pending| + 2 && r.value.pending[2..] == st.pending
              && |r.value.pending[0]| == 2
              && (r.value.pending[0] + r.value.pending[1] == arg || r.value.pending[0] + r.value.pending[1] == arg[..2] + "-" + arg[2..])
  {
    if |arg| == 2 then Ok(State(st.pending, st.positional, st.named[arg := Bool(true)]))
    else
      var head := arg[..2];
      var prefix := if head in needsArg then "" else "-";
      assert head + arg[2..] == arg;
      Ok(State([head, prefix + arg[2..]] + st.pending, st.positional, st.named))
  }

  /** The `for (i = 3; ...)` scan of `longOpts`: the first index from `from`
      on holding a delimiter. */
  function FirstDelim(arg: string, delims: string, from: nat): (r: Option<nat>)
    decreases |arg| - from
    ensures r.Some? ==> from <= r.value < |arg| && arg[r.value] in delims
    ensures r.Some? ==> forall j :: from <= j < r.value ==> arg[j] !in delims
    ensures r.None? ==> forall j :: from <= j < |arg| ==> arg[j] !in delims
  {
    if from >= |arg| then None
    else if arg[from] in delims then Some(from)
    else FirstDelim(arg, delims, from + 1)
  }

  /** `longOpts(delims)`: split at the first delimiter at index 3 or later and
      set the name before it to the text after it, refusing a name with a
      literal rule that takes no value; with no delimiter, take the next token
      as the value if there is one that no rule claims, else set true. */
  function LongOptsStep(rules: seq<Rule>, needsArg: seq<string>, delims: string, arg: string, st: State): (r: Outcome<State>)
    ensures r.Fail? ==> exists i :: 3 <= i < |arg| && arg[i] in delims && r.error == UnexpectedArgument(arg[..i])
    ensures r.Ok? ==> r.value.pending == st.pending || (st.pending != [] && r.value.pending == st.pending[1..])
    ensures r.Ok? ==> r.value.positional == st.positional && st.named.Keys <= r.value.named.Keys
  {
    match FirstDelim(arg, delims, 3)
    case Some(i) =>
      var opt := arg[..i];
      if ExactMatch(rules, opt).Some? && opt !in needsArg then Fail(UnexpectedArgument(opt))
      else Ok(State(st.pending, st.positional, st.named[opt := Str(arg[i + 1..])]))
    case None =>
      if st.pending != [] && Match(rules, st.pending[0]).None? then
        Ok(State(st.pending[1..], st.positional, st.named[arg := Str(st.pending[0])]))
      else Ok(State(st.pending, st.positional, st.named[arg := Bool(true)]))
  }

  /** `while (val = args.shift()) result.push(val)`: the tokens before the
      first empty one, and what follows that empty one (which is consumed). */
  function Drain(s: seq<string>): (r: (seq<string>, seq<string>))
    ensures "" !in r.0
    ensures "" in s ==> s == r.0 + [""] + r.1
    ensures "" !in s ==> r.0 == s && r.1 == []
  {
    if s == [] then ([], [])
    else if s[0] == "" then ([], s[1..])
    else
      var (moved, rest) := Drain(s[1..]);
      assert s == [s[0]] + s[1..];
      ([s[0]] + moved, rest)
  }

  /** `stopper()`: every following token up to an empty one becomes positional. */
  function StopperStep(st: State): (r: Outcome<State>)
    ensures r.Ok? && r.value.named == st.named && st.positional <= r.value.positional
    ensures var moved := r.value.positional[|st.positional|..];
            && "" !in moved
            && (st.pending == moved + r.value.pending || st.pending == moved + [""] + r.value.pending)
  {
    var (moved, rest) := Drain(st.pending);
    assert (st.positional + moved)[|st.positional|..] == moved;
    Ok(State(rest, st.positional + moved, st.named))
  }

  /** Calling the handler a rule holds. */
  function Apply(d: Declarations, h: Handler, arg: string, st: State): (r: Outcome<State>)
    requires h.ShortOptsH? ==> |arg| >= 2
    ensures r.Ok? ==> st.positional <= r.value.positional && st.named.Keys <= r.value.named.Keys
  {
    match h
    case OptionH(name, aliases) => OptionStep(d.rules, name, aliases, st)
    case FlagH(aliases) => FlagStep(aliases, st)
    case CountH(name, aliases) => CountStep(name, aliases, st)
    case ListH(name, aliases) => ListStep(d.rules, name, aliases, st)
    case ShortOptsH => ShortOptsStep(d.needsArg, arg, st)
    case LongOptsH(delims) => LongOptsStep(d.rules, d.needsArg, delims, arg, st)
    case StopperH => StopperStep(st)
  }

  /** Every handler leaves less pending work than there was with its own token:
      all of them only take tokens away, except the short-option split, which
      trades a token of length n >= 3 for tokens of length 2 and n - 1 or n - 2. */
  lemma HandlerProgress(d: Declarations, h: Handler, arg: string, st: State)
    requires h.ShortOptsH? ==> |arg| >= 2
    ensures Apply(d, h, arg, st).Ok? ==> Measure(Apply(d, h, arg, st).value.pending) < Pow3(|arg|) + Measure(st.pending)
  {
    var r := Apply(d, h, arg, st);
    if r.Ok? {
      var p := r.value.pending;
      if h.ShortOptsH? && |arg| > 2 {
        var head := arg[..2];
        var tail := (if head in d.needsArg then "" else "-") + arg[2..];
        assert p == [head, tail] + st.pending;
        assert p[1..][1..] == st.pending;
        ShortSplitShrinks(|arg|, |tail|);
      } else if h.StopperH? {
        var (moved, rest) := Drain(st.pending);
        if "" in st.pending {
          assert rest == st.pending[|moved| + 1..];
          MeasureDrop(st.pending, |moved| + 1);
        }
      } else if p != st.pending {
        assert p == st.pending[1..];
        MeasureDrop(st.pending, 1);
      }
    }
  }

  // ---------------------------------------------------------------------
  // The token loop of `parse` and the whole parse.

  /** `while (arg = args.shift())`: stop at the end or at an empty token;
      otherwise hand the token to its rule's handler, or make it positional. */
  function Run(d: Declarations, pending: seq<string>, pos: seq<string>, named: map<string, Value>): (r: Outcome<Parsed>)
    requires WellFormed(d.rules)
    decreases Measure(pending)
    ensures r.Ok? ==> pos <= r.value.positional && named.Keys <= r.value.named.Keys
  {
    if pending == [] || pending[0] == "" then Ok(Parsed(pos, named))
    else
      var arg, rest := pending[0], pending[1..];
      match Match(d.rules, arg)
      case None => Run(d, rest, pos + [arg], named)
      case Some(h) =>
        assert h.ShortOptsH? ==> |arg| >= 2 by {
          if h.ShortOptsH? { ShortOptsTokenLength(d.rules, arg); }
        }
        match Apply(d, h, arg, State(rest, pos, named))
        case Fail(e) => Fail(e)
        case Ok(s) =>
          HandlerProgress(d, h, arg, State(rest, pos, named));
          Run(d, s.pending, s.positional, s.named)
  }

  /** `parse(args)`: the loop, started from the defaults, then positional
      redistribution. */
  function ParseSpec(d: Declarations, args: seq<string>): (r: Outcome<Parsed>)
    requires WellFormed(d.rules)
    ensures r.Ok? ==> d.defaults.Keys <= r.value.named.Keys
    ensures r.Ok? ==> forall j :: 0 <= j < |d.required| ==> d.required[j] in r.value.named
  {
    match Run(d, args, [], d.defaults)
    case Fail(e) => Fail(e)
    case Ok(p) => Positional.Assign(d.required, d.optional, d.iopts, p.positional, p.named)
  }

  // ---------------------------------------------------------------------
  // Properties of the loop.

  /** One turn of the loop on a token some rule claims. */
  lemma RunStep(d: Declarations, arg: string, more: seq<string>, pos: seq<string>, named: map<string, Value>, h: Handler)
    requires WellFormed(d.rules) && arg != "" && Match(d.rules, arg) == Some(h)
    ensures h.ShortOptsH? ==> |arg| >= 2
    ensures var r := Apply(d, h, arg, State(more, pos, named));
            Run(d, [arg] + more, pos, named)
            == if r.Fail? then Fail(r.error) else Run(d, r.value.pending, r.value.positional, r.value.named)
  {
    if h.ShortOptsH? { ShortOptsTokenLength(d.rules, arg); }
    assert ([arg] + more)[0] == arg && ([arg] + more)[1..] == more;
  }

  /** Tokens no rule claims are appended to the positional list in the order
      met, and an empty token ends the loop with everything after it unread. */
  lemma {:induction false} RunUnmatched(d: Declarations, prefix: seq<string>, rest: seq<string>, pos: seq<string>,
                                        named: map<string, Value>)
    requires WellFormed(d.rules)
    requires forall i :: 0 <= i < |prefix| ==> prefix[i] != "" && Match(d.rules, prefix[i]).None?
    ensures Run(d, prefix + rest, pos, named) == Run(d, rest, pos + prefix, named)
    ensures Run(d, prefix + [""] + rest, pos, named) == Ok(Parsed(pos + prefix, named))
    decreases |prefix|
  {
    if prefix != [] {
      RunUnmatched(d, prefix[1..], rest, pos + [prefix[0]], named);
      assert (prefix + rest)[1..] == prefix[1..] + rest;
      assert (prefix + [""] + rest)[1..] == prefix[1..] + [""] + rest;
      assert pos + [prefix[0]] + prefix[1..] == pos + prefix;
    } else {
      assert prefix + rest == rest && pos + prefix == pos;
      assert (prefix + [""] + rest)[0] == "";
    }
  }

  /** With no rule claiming any token and no positional names declared, the
      positional list is the input and the named map is the defaults. */
  lemma ParsePassThrough(d: Declarations, args: seq<string>)
    requires WellFormed(d.rules) && d.required == [] && d.optional == []
    requires forall i :: 0 <= i < |args| ==> args[i] != "" && Match(d.rules, args[i]).None?
    ensures ParseSpec(d, args) == Ok(Parsed(args, d.defaults))
  {
    RunUnmatched(d, args, [], [], d.defaults);
    assert args + [] == args && [] + args == args;
  }

  /** When no rule claims any token, the positional names are given out from
      the whole input, starting from the defaults. */
  lemma ParseUnclaimed(d: Declarations, args: seq<string>)
    requires WellFormed(d.rules)
    requires forall i :: 0 <= i < |args| ==> args[i] != "" && Match(d.rules, args[i]).None?
    ensures ParseSpec(d, args) == Positional.Assign(d.required, d.optional, d.iopts, args, d.defaults)
  {
    RunUnmatched(d, args, [], [], d.defaults);
    assert args + [] == args && [] + args == args;
  }

  /** Nothing after the first empty token the loop reaches has any effect. */
  lemma ParseStopsAtEmpty(d: Declarations, prefix: seq<string>, rest: seq<string>)
    requires WellFormed(d.rules)
    requires forall i :: 0 <= i < |prefix| ==> prefix[i] != "" && Match(d.rules, prefix[i]).None?
    ensures ParseSpec(d, prefix + [""] + rest) == ParseSpec(d, prefix)
  {
    RunUnmatched(d, prefix, [], [], d.defaults);
    RunUnmatched(d, prefix, rest, [], d.defaults);
    assert prefix + [] == prefix && [] + prefix == prefix;
  }

  /** The stopper makes every later token positional, whatever rules would
      claim it, up to an empty token. */
  lemma StopperMovesRest(d: Declarations, stop: string, tail: seq<string>, pos: seq<string>, named: map<string, Value>)
    requires WellFormed(d.rules) && stop != ""
    requires Match(d.rules, stop) == Some(StopperH)
    requires "" !in tail
    ensures Run(d, [stop] + tail, pos, named) == Ok(Parsed(pos + tail, named))
  {
    assert ([stop] + tail)[1..] == tail;
    var (moved, rest) := Drain(tail);
    assert moved == tail && rest == [];
  }

  /** At the first empty token after the stopper the stopper's work ends: that
      token is consumed and the loop goes on with what follows it. */
  lemma StopperResumes(d: Declarations, stop: string, moved: seq<string>, rest: seq<string>,
                       pos: seq<string>, named: map<string, Value>)
    requires WellFormed(d.rules) && stop != ""
    requires Match(d.rules, stop) == Some(StopperH)
    requires "" !in moved
    ensures Run(d, [stop] + moved + [""] + rest, pos, named) == Run(d, rest, pos + moved, named)
  {
    var more := moved + [""] + rest;
    assert [stop] + moved + [""] + rest == [stop] + more;
    DrainSplit(moved, rest);
    assert Apply(d, StopperH, stop, State(more, pos, named)) == Ok(State(rest, pos + moved, named));
    RunStep(d, stop, more, pos, named, StopperH);
  }

  /** The tokens before the first empty one are the ones moved. */
  lemma {:induction false} DrainSplit(moved: seq<string>, rest: seq<string>)
    requires "" !in moved
    ensures Drain(moved + [""] + rest) == (moved, rest)
    decreases |moved|
  {
    if moved == [] {
      assert moved + [""] + rest == [""] + rest;
    } else {
      assert (moved + [""] + rest)[1..] == moved[1..] + [""] + rest;
      DrainSplit(moved[1..], rest);
      assert [moved[0]] + moved[1..] == moved;
    }
  }

  // ---------------------------------------------------------------------
  // Properties of the handlers.

  /** An option or list handler fails exactly when no token follows or a rule
      claims the next one, a list also when the matched name holds a truthy
      value that is not a list; otherwise it consumes exactly that token and
      every alias gets it (a list: the matched name's list, or the empty list
      for a falsy value, with it appended). */
  lemma ValueHandlers(rules: seq<Rule>, name: string, aliases: seq<string>, st: State)
    ensures var missing := st.pending == [] || Match(rules, st.pending[0]).Some?;
            var cur := Lookup(st.named, name);
            && (OptionStep(rules, name, aliases, st).Fail? <==> missing)
            && (missing ==> OptionStep(rules, name, aliases, st) == Fail(MissingValue(name)))
            && (ListStep(rules, name, aliases, st).Fail? <==> missing || !(Falsy(cur) || cur.value.List?))
            && (missing ==> ListStep(rules, name, aliases, st) == Fail(MissingValue(name)))
            && (!missing && !(Falsy(cur) || cur.value.List?) ==> ListStep(rules, name, aliases, st) == Fail(NotAList(name)))
            && (!missing && Falsy(cur) ==>
                  forall a :: a in aliases ==> ListStep(rules, name, aliases, st).value.named[a] == List([st.pending[0]]))
            && (!missing ==>
                  var r := OptionStep(rules, name, aliases, st).value;
                  && r.pending == st.pending[1..] && r.positional == st.positional
                  && (forall a :: a in aliases ==> r.named[a] == Str(st.pending[0]))
                  && (forall k :: k in st.named && k !in aliases ==> r.named[k] == st.named[k]))
            && (!missing && ListStep(rules, name, aliases, st).Ok? ==>
                  var r := ListStep(rules, name, aliases, st).value;
                  var base := ListBase(Lookup(st.named, name));
                  && base.Some?
                  && r.pending == st.pending[1..] && r.positional == st.positional
                  && (forall a :: a in aliases ==> r.named[a] == List(base.value + [st.pending[0]]))
                  && (forall k :: k in st.named && k !in aliases ==> r.named[k] == st.named[k]))
  {
  }

  /** A flag sets every alias to true; a count sets every alias to the matched
      name's number plus one (one when unset). Neither consumes a token. */
  lemma FlagAndCount(name: string, aliases: seq<string>, st: State, c: int)
    requires Lookup(st.named, name) == Some(Int(c)) || Lookup(st.named, name) == None
    ensures var r := FlagStep(aliases, st).value;
            r.pending == st.pending && forall a :: a in aliases ==> r.named[a] == Bool(true)
    ensures var r := CountStep(name, aliases, st).value;
            && r.pending == st.pending
            && forall a :: a in aliases ==>
                 r.named[a] == (if name in st.named then Int(c + 1) else Int(1))
  {
  }

  /** n copies of a token. */
  function Repeat(tok: string, n: nat): seq<string>
  {
    if n == 0 then [] else [tok] + Repeat(tok, n - 1)
  }

  /** One counter token adds one to the count in every alias. */
  lemma CountOnce(d: Declarations, tok: string, aliases: seq<string>, more: seq<string>,
                  pos: seq<string>, named: map<string, Value>, c: int)
    requires WellFormed(d.rules) && tok != ""
    requires Match(d.rules, tok) == Some(CountH(tok, aliases))
    requires Lookup(named, tok) == Some(Int(c))
    ensures Run(d, [tok] + more, pos, named) == Run(d, more, pos, Assigned(named, aliases, Int(c + 1)))
  {
    assert CountNext(Lookup(named, tok)) == Int(c + 1) by {
      if c == 0 { assert Falsy(Lookup(named, tok)); }
    }
    RunStep(d, tok, more, pos, named, CountH(tok, aliases));
  }

  /** n consecutive tokens of a counter whose name is among its aliases,
      starting from c, leave c + n in every alias. */
  lemma CountHead(d: Declarations, tok: string, aliases: seq<string>, n: nat, rest: seq<string>,
                  pos: seq<string>, named: map<string, Value>, c: int)
    requires WellFormed(d.rules) && tok != "" && n >= 1
    requires Match(d.rules, tok) == Some(CountH(tok, aliases))
    requires Lookup(named, tok) == Some(Int(c))
    ensures Run(d, Repeat(tok, n) + rest, pos, named) == Run(d, Repeat(tok, n - 1) + rest, pos, Assigned(named, aliases, Int(c + 1)))
  {
    var more := Repeat(tok, n - 1) + rest;
    assert Repeat(tok, n) + rest == [tok] + more;
    CountOnce(d, tok, aliases, more, pos, named, c);
  }

  lemma {:induction false} CountRepeated(d: Declarations, tok: string, aliases: seq<string>, n: nat, rest: seq<string>,
                                         pos: seq<string>, named: map<string, Value>, c: int, total: int)
    requires WellFormed(d.rules) && tok != "" && tok in aliases && n >= 1 && total == c + n
    requires Match(d.rules, tok) == Some(CountH(tok, aliases))
    requires Lookup(named, tok) == Some(Int(c))
    ensures Run(d, Repeat(tok, n) + rest, pos, named) == Run(d, rest, pos, Assigned(named, aliases, Int(total)))
    decreases n
  {
    if n > 1 {
      var named' := Assigned(named, aliases, Int(c + 1));
      assert Lookup(named', tok) == Some(Int(c + 1));
      AssignedTwice(named, aliases, Int(c + 1), Int(total));
      CountRepeated(d, tok, aliases, n - 1, rest, pos, named', c + 1, total);
    } else {
      assert Repeat(tok, n - 1) + rest == rest;
      assert Assigned(named, aliases, Int(c + 1)) == Assigned(named, aliases, Int(total));
    }
    CountHead(d, tok, aliases, n, rest, pos, named, c);
  }

  /** Setting the same names twice keeps only the second value. */
  lemma AssignedTwice(m: map<string, Value>, names: seq<string>, v: Value, w: Value)
    ensures Assigned(Assigned(m, names, v), names, w) == Assigned(m, names, w)
  {
  }

  /** The token pattern `tok v1 tok v2 ...`. */
  function Pairs(tok: string, vals: seq<string>): seq<string>
  {
    if vals == [] then [] else [tok, vals[0]] + Pairs(tok, vals[1..])
  }

  /** One list token and its value append the value in every alias. */
  lemma ListOnce(d: Declarations, tok: string, aliases: seq<string>, v: string, more: seq<string>,
                 pos: seq<string>, named: map<string, Value>, items: seq<string>)
    requires WellFormed(d.rules) && tok != ""
    requires Match(d.rules, tok) == Some(ListH(tok, aliases)) && Match(d.rules, v).None?
    requires Lookup(named, tok) == Some(List(items))
    ensures Run(d, [tok, v] + more, pos, named) == Run(d, more, pos, Assigned(named, aliases, List(items + [v])))
  {
    assert [tok, v] + more == [tok] + ([v] + more);
    assert ([v] + more)[0] == v && ([v] + more)[1..] == more;
    RunStep(d, tok, [v] + more, pos, named, ListH(tok, aliases));
  }

  /** The first pair of a run of list tokens. */
  lemma ListHead(d: Declarations, tok: string, aliases: seq<string>, vals: seq<string>, rest: seq<string>,
                 pos: seq<string>, named: map<string, Value>, items: seq<string>)
    requires WellFormed(d.rules) && tok != "" && |vals| >= 1
    requires Match(d.rules, tok) == Some(ListH(tok, aliases)) && Match(d.rules, vals[0]).None?
    requires Lookup(named, tok) == Some(List(items))
    ensures Run(d, Pairs(tok, vals) + rest, pos, named)
            == Run(d, Pairs(tok, vals[1..]) + rest, pos, Assigned(named, aliases, List(items + [vals[0]])))
  {
    var after := Pairs(tok, vals[1..]) + rest;
    assert Pairs(tok, vals) + rest == [tok, vals[0]] + after;
    ListOnce(d, tok, aliases, vals[0], after, pos, named, items);
  }

  /** Repeated list tokens collect their values in order in every alias,
      after what the matched name held before. */
  lemma {:induction false} ListRepeated(d: Declarations, tok: string, aliases: seq<string>, vals: seq<string>,
                                        rest: seq<string>, pos: seq<string>, named: map<string, Value>,
                                        items: seq<string>, all: seq<string>)
    requires WellFormed(d.rules) && tok != "" && tok in aliases && |vals| >= 1 && all == items + vals
    requires Match(d.rules, tok) == Some(ListH(tok, aliases))
    requires forall i :: 0 <= i < |vals| ==> Match(d.rules, vals[i]).None?
    requires Lookup(named, tok) == Some(List(items))
    ensures Run(d, Pairs(tok, vals) + rest, pos, named) == Run(d, rest, pos, Assigned(named, aliases, List(all)))
    decreases |vals|
  {
    if |vals| > 1 {
      var named' := Assigned(named, aliases, List(items + [vals[0]]));
      forall i | 0 <= i < |vals| - 1 ensures Match(d.rules, vals[1..][i]).None? {
        assert vals[1..][i] == vals[i + 1];
      }
      assert items + [vals[0]] + vals[1..] == all by {
        assert [vals[0]] + vals[1..] == vals;
      }
      assert Lookup(named', tok) == Some(List(items + [vals[0]]));
      AssignedTwice(named, aliases, List(items + [vals[0]]), List(all));
      ListRepeated(d, tok, aliases, vals[1..], rest, pos, named', items + [vals[0]], all);
      ListHead(d, tok, aliases, vals, rest, pos, named, items);
    } else {
      assert Pairs(tok, vals[1..]) + rest == rest;
      assert vals == [vals[0]];
      assert List(items + [vals[0]]) == List(all);
      assert Assigned(named, aliases, List(items + [vals[0]])) == Assigned(named, aliases, List(all));
      ListHead(d, tok, aliases, vals, rest, pos, named, items);
    }
  }

  /** The dash-letter names a bundle of short options stands for. */
  function ShortNames(cs: string): (r: seq<string>)
    ensures |r| == |cs|
    ensures forall i :: 0 <= i < |cs| ==> r[i] == "-" + [cs[i]]
  {
    if cs == [] then [] else ["-" + [cs[0]]] + ShortNames(cs[1..])
  }

  /** Setting one more name first, to the same value, changes nothing. */
  lemma AssignedCons(m: map<string, Value>, a: string, names: seq<string>, v: Value)
    ensures Assigned(m[a := v], names, v) == Assigned(m, [a] + names, v)
  {
    var l, r := Assigned(m[a := v], names, v), Assigned(m, [a] + names, v);
    assert forall k :: k in [a] + names <==> k == a || k in names;
    assert l.Keys == r.Keys;
  }

  /** A short-option token of two characters sets itself to true. */
  lemma ShortSingle(d: Declarations, arg: string, rest: seq<string>, pos: seq<string>, named: map<string, Value>)
    requires WellFormed(d.rules) && |arg| == 2 && Match(d.rules, arg) == Some(ShortOptsH)
    ensures Run(d, [arg] + rest, pos, named) == Run(d, rest, pos, named[arg := Bool(true)])
  {
    RunStep(d, arg, rest, pos, named, ShortOptsH);
  }

  /** A longer short-option token is put back as its first two characters
      and the rest, the rest with a dash in front unless those two characters
      name an option that takes a value. */
  lemma ShortSplit(d: Declarations, arg: string, rest: seq<string>, pos: seq<string>, named: map<string, Value>)
    requires WellFormed(d.rules) && |arg| >= 3 && Match(d.rules, arg) == Some(ShortOptsH)
    ensures var tail := (if arg[..2] in d.needsArg then "" else "-") + arg[2..];
            Run(d, [arg] + rest, pos, named) == Run(d, [arg[..2], tail] + rest, pos, named)
  {
    RunStep(d, arg, rest, pos, named, ShortOptsH);
  }

  /** A bundle `-abc` of short options, none of which takes a value or has a
      rule of its own, sets `-a`, `-b` and `-c` to true and consumes nothing
      else. */
  lemma {:induction false} ShortBundle(d: Declarations, cs: string, rest: seq<string>, pos: seq<string>, named: map<string, Value>)
    requires WellFormed(d.rules) && |cs| >= 1
    requires forall i :: 0 <= i < |cs| ==> Match(d.rules, "-" + cs[i..]) == Some(ShortOptsH)
    requires forall i :: 0 <= i < |cs| ==> Match(d.rules, "-" + [cs[i]]) == Some(ShortOptsH)
    requires forall i :: 0 <= i < |cs| ==> "-" + [cs[i]] !in d.needsArg
    ensures Run(d, ["-" + cs] + rest, pos, named) == Run(d, rest, pos, Assigned(named, ShortNames(cs), Bool(true)))
    decreases |cs|
  {
    var arg := "-" + cs;
    var head := "-" + [cs[0]];
    assert Match(d.rules, arg) == Some(ShortOptsH) by { assert cs[0..] == cs; }
    if |cs| == 1 {
      assert cs == [cs[0]];
      assert arg == head;
      assert ShortNames(cs) == [head];
      assert Assigned(named, [head], Bool(true)) == named[head := Bool(true)];
      ShortSingle(d, head, rest, pos, named);
    } else {
      assert head !in d.needsArg && Match(d.rules, head) == Some(ShortOptsH);
      ShortBundleFirst(d, cs, rest, pos, named);
      ShortBundleShift(d, cs);
      ShortBundle(d, cs[1..], rest, pos, named[head := Bool(true)]);
      assert ShortNames(cs) == [head] + ShortNames(cs[1..]);
      AssignedCons(named, head, ShortNames(cs[1..]), Bool(true));
    }
  }

  /** The first letter of a bundle of two or more is split off and set. */
  lemma ShortBundleFirst(d: Declarations, cs: string, rest: seq<string>, pos: seq<string>, named: map<string, Value>)
    requires WellFormed(d.rules) && |cs| >= 2
    requires Match(d.rules, "-" + cs) == Some(ShortOptsH)
    requires Match(d.rules, "-" + [cs[0]]) == Some(ShortOptsH) && "-" + [cs[0]] !in d.needsArg
    ensures Run(d, ["-" + cs] + rest, pos, named) == Run(d, ["-" + cs[1..]] + rest, pos, named["-" + [cs[0]] := Bool(true)])
  {
    var arg, head, tail := "-" + cs, "-" + [cs[0]], "-" + cs[1..];
    assert arg[..2] == head && arg[2..] == cs[1..];
    assert [head, tail] + rest == [head] + ([tail] + rest);
    ShortSplit(d, arg, rest, pos, named);
    ShortSingle(d, head, [tail] + rest, pos, named);
  }

  /** What a bundle requires of its letters holds of the letters after the first. */
  lemma ShortBundleShift(d: Declarations, cs: string)
    requires |cs| >= 2
    requires forall i :: 0 <= i < |cs| ==> Match(d.rules, "-" + cs[i..]) == Some(ShortOptsH)
    requires forall i :: 0 <= i < |cs| ==> Match(d.rules, "-" + [cs[i]]) == Some(ShortOptsH)
    requires forall i :: 0 <= i < |cs| ==> "-" + [cs[i]] !in d.needsArg
    ensures forall i :: 0 <= i < |cs| - 1 ==> Match(d.rules, "-" + cs[1..][i..]) == Some(ShortOptsH)
    ensures forall i :: 0 <= i < |cs| - 1 ==> Match(d.rules, "-" + [cs[1..][i]]) == Some(ShortOptsH)
    ensures forall i :: 0 <= i < |cs| - 1 ==> "-" + [cs[1..][i]] !in d.needsArg
  {
    forall i | 0 <= i < |cs| - 1
      ensures cs[1..][i..] == cs[i + 1..] && cs[1..][i] == cs[i + 1]
    {
    }
  }

  /** `-xVALUE`, where `-x` is an option: the value adjoined to the letter
      becomes the option's value. */
  lemma AdjoinedValue(d: Declarations, c: char, v: string, name: string, aliases: seq<string>, rest: seq<string>,
                      pos: seq<string>, named: map<string, Value>)
    requires WellFormed(d.rules) && |v| >= 1
    requires Match(d.rules, "-" + [c] + v) == Some(ShortOptsH)
    requires "-" + [c] in d.needsArg && Match(d.rules, "-" + [c]) == Some(OptionH(name, aliases))
    requires Match(d.rules, v).None?
    ensures Run(d, ["-" + [c] + v] + rest, pos, named) == Run(d, rest, pos, Assigned(named, aliases, Str(v)))
  {
    var arg := "-" + [c] + v;
    var head := "-" + [c];
    assert arg[..2] == head && arg[2..] == v;
    assert ([arg] + rest)[1..] == rest;
    assert "" + v == v;
    assert ([head, v] + rest)[1..] == [v] + rest;
    assert ([v] + rest)[1..] == rest;
  }

  /** A delimited long option sets exactly the name before the delimiter, to
      the text after it, and fails for a name whose literal rule takes no
      value. */
  lemma LongDelimited(rules: seq<Rule>, needsArg: seq<string>, delims: string, arg: string, st: State, i: nat)
    requires 3 <= i < |arg| && arg[i] in delims
    requires forall j :: 3 <= j < i ==> arg[j] !in delims
    ensures var r := LongOptsStep(rules, needsArg, delims, arg, st);
            && (r.Fail? <==> ExactMatch(rules, arg[..i]).Some? && arg[..i] !in needsArg)
            && (r.Fail? ==> r.error == UnexpectedArgument(arg[..i]))
            && (r.Ok? ==> r.value == State(st.pending, st.positional, st.named[arg[..i] := Str(arg[i + 1..])]))
  {
  }

  /** Without a delimiter at index 3 or later, a long option takes the next
      token as its value when one follows that no rule claims, and is true
      otherwise. */
  lemma LongUndelimited(rules: seq<Rule>, needsArg: seq<string>, delims: string, arg: string, st: State)
    requires forall j :: 3 <= j < |arg| ==> arg[j] !in delims
    ensures var r := LongOptsStep(rules, needsArg, delims, arg, st);
            && r.Ok?
            && (st.pending != [] && Match(rules, st.pending[0]).None? ==>
                  r.value == State(st.pending[1..], st.positional, st.named[arg := Str(st.pending[0])]))
            && (st.pending == [] || Match(rules, st.pending[0]).Some? ==>
                  r.value == State(st.pending, st.positional, st.named[arg := Bool(true)]))
  {
  }

  /** One turn of the loop on a delimited long option the parser accepts. */
  lemma LongDelimitedRun(d: Declarations, delims: string, arg: string, i: nat, rest: seq<string>, pos: seq<string>,
                         named: map<string, Value>)
    requires WellFormed(d.rules) && Match(d.rules, arg) == Some(LongOptsH(delims))
    requires 3 <= i < |arg| && arg[i] in delims
    requires forall j :: 3 <= j < i ==> arg[j] !in delims
    requires ExactMatch(d.rules, arg[..i]).None? || arg[..i] in d.needsArg
    ensures Run(d, [arg] + rest, pos, named) == Run(d, rest, pos, named[arg[..i] := Str(arg[i + 1..])])
  {
    LongDelimited(d.rules, d.needsArg, delims, arg, State(rest, pos, named), i);
    RunStep(d, arg, rest, pos, named, LongOptsH(delims));
  }

  /** One turn of the loop on an undelimited long option with no value token
      after it. */
  lemma LongAloneRun(d: Declarations, delims: string, arg: string, rest: seq<string>, pos: seq<string>,
                     named: map<string, Value>)
    requires WellFormed(d.rules) && arg != "" && Match(d.rules, arg) == Some(LongOptsH(delims))
    requires forall j :: 3 <= j < |arg| ==> arg[j] !in delims
    requires rest == [] || Match(d.rules, rest[0]).Some?
    ensures Run(d, [arg] + rest, pos, named) == Run(d, rest, pos, named[arg := Bool(true)])
  {
    LongUndelimited(d.rules, d.needsArg, delims, arg, State(rest, pos, named));
    RunStep(d, arg, rest, pos, named, LongOptsH(delims));
  }
}

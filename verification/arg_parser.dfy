/** The `ArgParser` object of lib/arg-parser.js: the builder calls that record
    rules, positional names, defaults and the names that take a value; the
    built-in handlers, which change a `Result` and the pending token list; the
    positional redistribution; and `parse`. Each operation is proved against
    the functions of the Engine and Positional modules. */
module ArgParsers {
  import opened Values
  import opened Results
  import opened Rules
  import opened Engine
  import Positional

  /** The four builder calls that register one rule per name. */
  datatype Kind = OptionKind | FlagKind | CountKind | ListKind

  /** The handler registered under `name` by a builder call for all of `names`. */
  function HandlerFor(kind: Kind, name: string, names: seq<string>): Handler
  {
    match kind
    case OptionKind => OptionH(name, names)
    case FlagKind => FlagH(names)
    case CountKind => CountH(name, names)
    case ListKind => ListH(name, names)
  }

  /** The default each builder call gives its names: false, false, 0, []. */
  function DefaultFor(kind: Kind): Value
  {
    match kind
    case OptionKind => Bool(false)
    case FlagKind => Bool(false)
    case CountKind => Int(0)
    case ListKind => List([])
  }

  /** `option` and `list` record their names as taking a value. */
  predicate TakesValue(kind: Kind)
  {
    kind.OptionKind? || kind.ListKind?
  }

  /** The literal rules a builder call registers for the first `upto` names. */
  function NamedRules(kind: Kind, names: seq<string>, upto: nat): (r: seq<Rule>)
    requires upto <= |names|
    ensures |r| == upto
  {
    if upto == 0 then []
    else NamedRules(kind, names, upto - 1) + [Rule(Exact(names[upto - 1]), HandlerFor(kind, names[upto - 1], names))]
  }

  /** The i-th rule a builder call registers is the literal rule for the i-th
      name, whose handler knows that name and all of the call's names. */
  lemma {:induction false} NamedRulesContent(kind: Kind, names: seq<string>, upto: nat, i: nat)
    requires i < upto <= |names|
    ensures NamedRules(kind, names, upto)[i] == Rule(Exact(names[i]), HandlerFor(kind, names[i], names))
    decreases upto
  {
    if i < upto - 1 {
      NamedRulesContent(kind, names, upto - 1, i);
    }
  }

  /** Appending the rules of a builder call keeps a table well formed. */
  lemma {:induction false} NamedRulesWellFormed(rules: seq<Rule>, kind: Kind, names: seq<string>, upto: nat)
    requires upto <= |names| && WellFormed(rules)
    ensures WellFormed(rules + NamedRules(kind, names, upto))
    decreases upto
  {
    if upto > 0 {
      NamedRulesWellFormed(rules, kind, names, upto - 1);
      var last := Rule(Exact(names[upto - 1]), HandlerFor(kind, names[upto - 1], names));
      assert rules + NamedRules(kind, names, upto) == (rules + NamedRules(kind, names, upto - 1)) + [last];
    } else {
      assert rules + NamedRules(kind, names, upto) == rules;
    }
  }

  /** A handler method did what the step function says: on failure it reports
      the same error; otherwise the pending tokens, the positional tokens and
      the named values are the step's. */
  predicate Agrees(r: Outcome<State>, rest: seq<string>, err: Option<ParseError>, res: Result)
    reads res
  {
    if r.Fail? then err == Some(r.error)
    else err.None? && rest == r.value.pending && res.positional == r.value.positional && res.named == r.value.named
  }

  class ArgParser {
    var rules: seq<Rule>
    var required: seq<string>
    var optional: seq<string>
    var iopts: Option<nat>
    var defaults: map<string, Value>
    var needsArg: seq<string>

    /** The builder calls keep the rule table well formed, fix the optional
        insertion index exactly when the first optional name is added (so it
        never exceeds the number of required names), and give every optional
        name a default. */
    ghost predicate Valid()
      reads this
    {
      && WellFormed(rules)
      && (iopts.Some? <==> |optional| > 0)
      && (iopts.Some? ==> iopts.value <= |required|)
      && (forall i :: 0 <= i < |optional| ==> optional[i] in defaults)
    }

    /** What a parse depends on. */
    function Snapshot(): Declarations
      reads this
    {
      Declarations(rules, required, optional, iopts, defaults, needsArg)
    }

    /** `new ArgParser()` / `ArgParser.create()`: nothing declared. */
    constructor ()
      ensures Valid()
      ensures rules == [] && required == [] && optional == [] && iopts == None
      ensures defaults == map[] && needsArg == []
    {
      rules, required, optional, iopts := [], [], [], None;
      defaults, needsArg := map[], [];
    }

    /** `rule(match, parse)`: append one rule; later rules lose ties. */
    method AddRule(m: Matcher, h: Handler)
      requires Valid() && ValidRule(Rule(m, h))
      modifies this
      ensures Valid()
      ensures rules == old(rules) + [Rule(m, h)]
      ensures required == old(required) && optional == old(optional) && iopts == old(iopts)
      ensures defaults == old(defaults) && needsArg == old(needsArg)
    {
      rules := rules + [Rule(m, h)];
    }

    /** `required(name)`: one more required positional name. */
    method AddRequired(name: string)
      requires Valid()
      modifies this
      ensures Valid()
      ensures required == old(required) + [name]
      ensures rules == old(rules) && optional == old(optional) && iopts == old(iopts)
      ensures defaults == old(defaults) && needsArg == old(needsArg)
    {
      required := required + [name];
    }

    /** `optional(name)`: the first call fixes the insertion index at the
        number of required names so far; every call adds the name with the
        default false. */
    method AddOptional(name: string)
      requires Valid()
      modifies this
      ensures Valid()
      ensures optional == old(optional) + [name]
      ensures iopts == if old(optional) == [] then Some(|old(required)|) else old(iopts)
      ensures defaults == old(defaults)[name := Bool(false)]
      ensures rules == old(rules) && required == old(required) && needsArg == old(needsArg)
    {
      if |optional| == 0 {
        iopts := Some(|required|);
      }
      optional := optional + [name];
      defaults := defaults[name := Bool(false)];
    }

    /** `default(n1, ..., nk, val)`: every listed name gets the value. */
    method SetDefault(names: seq<string>, val: Value)
      requires Valid()
      modifies this
      ensures Valid()
      ensures defaults == Assigned(old(defaults), names, val)
      ensures rules == old(rules) && required == old(required) && optional == old(optional)
      ensures iopts == old(iopts) && needsArg == old(needsArg)
    {
      var i := 0;
      while i < |names|
        invariant 0 <= i <= |names|
        invariant Valid()
        invariant defaults == Assigned(old(defaults), names[..i], val)
        invariant rules == old(rules) && required == old(required) && optional == old(optional)
        invariant iopts == old(iopts) && needsArg == old(needsArg)
      {
        assert names[..i + 1][..i] == names[..i];
        defaults := defaults[names[i] := val];
        i := i + 1;
      }
      assert names[..i] == names;
    }

    /** `getDefaults()`: a copy of the defaults. */
    method GetDefaults() returns (r: map<string, Value>)
      ensures r == defaults
    {
      r := CopyNamed(defaults);
    }

    /** The shared body of `option`, `flag`, `count` and `list`: for each name
        in turn, record it as taking a value (option and list), give it the
        call's default, and register a literal rule for it whose handler knows
        the name and all of its aliases. */
    method AddNamed(kind: Kind, names: seq<string>)
      requires Valid()
      modifies this
      ensures Valid()
      ensures rules == old(rules) + NamedRules(kind, names, |names|)
      ensures needsArg == old(needsArg) + (if TakesValue(kind) then names else [])
      ensures defaults == Assigned(old(defaults), names, DefaultFor(kind))
      ensures required == old(required) && optional == old(optional) && iopts == old(iopts)
    {
      var i := 0;
      while i < |names|
        invariant 0 <= i <= |names|
        invariant rules == old(rules) + NamedRules(kind, names, i)
        invariant TakesValue(kind) ==> needsArg == old(needsArg) + names[..i]
        invariant !TakesValue(kind) ==> needsArg == old(needsArg)
        invariant defaults == Assigned(old(defaults), names[..i], DefaultFor(kind))
        invariant required == old(required) && optional == old(optional) && iopts == old(iopts)
      {
        assert names[..i + 1] == names[..i] + [names[i]];
        assert names[..i + 1][..i] == names[..i];
        assert old(needsArg) + names[..i + 1] == (old(needsArg) + names[..i]) + [names[i]];
        assert old(rules) + NamedRules(kind, names, i + 1)
               == (old(rules) + NamedRules(kind, names, i)) + [Rule(Exact(names[i]), HandlerFor(kind, names[i], names))];
        AddOne(kind, names[i], names);
        i := i + 1;
      }
      assert names[..i] == names;
      NamedRulesWellFormed(old(rules), kind, names, |names|);
    }

    /** One turn of the `names.forEach` of a builder call. */
    method AddOne(kind: Kind, name: string, names: seq<string>)
      modifies this
      ensures rules == old(rules) + [Rule(Exact(name), HandlerFor(kind, name, names))]
      ensures needsArg == old(needsArg) + (if TakesValue(kind) then [name] else [])
      ensures defaults == old(defaults)[name := DefaultFor(kind)]
      ensures required == old(required) && optional == old(optional) && iopts == old(iopts)
    {
      if TakesValue(kind) {
        needsArg := needsArg + [name];
      }
      defaults := defaults[name := DefaultFor(kind)];
      rules := rules + [Rule(Exact(name), HandlerFor(kind, name, names))];
    }

    /** `option(name, ...aliases)`. */
    method AddOption(names: seq<string>)
      requires Valid()
      modifies this
      ensures Valid()
      ensures rules == old(rules) + NamedRules(OptionKind, names, |names|)
      ensures needsArg == old(needsArg) + names
      ensures defaults == Assigned(old(defaults), names, Bool(false))
      ensures required == old(required) && optional == old(optional) && iopts == old(iopts)
    {
      AddNamed(OptionKind, names);
    }

    /** `flag(name, ...aliases)`. */
    method AddFlag(names: seq<string>)
      requires Valid()
      modifies this
      ensures Valid()
      ensures rules == old(rules) + NamedRules(FlagKind, names, |names|)
      ensures needsArg == old(needsArg)
      ensures defaults == Assigned(old(defaults), names, Bool(false))
      ensures required == old(required) && optional == old(optional) && iopts == old(iopts)
    {
      AddNamed(FlagKind, names);
    }

    /** `count(name, ...aliases)`. */
    method AddCount(names: seq<string>)
      requires Valid()
      modifies this
      ensures Valid()
      ensures rules == old(rules) + NamedRules(CountKind, names, |names|)
      ensures needsArg == old(needsArg)
      ensures defaults == Assigned(old(defaults), names, Int(0))
      ensures required == old(required) && optional == old(optional) && iopts == old(iopts)
    {
      AddNamed(CountKind, names);
    }

    /** `list(name, ...aliases)`. */
    method AddList(names: seq<string>)
      requires Valid()
      modifies this
      ensures Valid()
      ensures rules == old(rules) + NamedRules(ListKind, names, |names|)
      ensures needsArg == old(needsArg) + names
      ensures defaults == Assigned(old(defaults), names, List([]))
      ensures required == old(required) && optional == old(optional) && iopts == old(iopts)
    {
      AddNamed(ListKind, names);
    }

    /** `shortOpts()`: the rule for `/^-[^-]+/`. */
    method EnableShortOpts()
      requires Valid()
      modifies this
      ensures Valid()
      ensures rules == old(rules) + [Rule(ShortPat, ShortOptsH)]
      ensures required == old(required) && optional == old(optional) && iopts == old(iopts)
      ensures defaults == old(defaults) && needsArg == old(needsArg)
    {
      AddRule(ShortPat, ShortOptsH);
    }

    /** `longOpts(delims)`: the rule for `/^--.+/`; anything but a string as
        the delimiter set (None) means "=". */
    method EnableLongOpts(delims: Option<string>)
      requires Valid()
      modifies this
      ensures Valid()
      ensures rules == old(rules) + [Rule(LongPat, LongOptsH(if delims.Some? then delims.value else "="))]
      ensures required == old(required) && optional == old(optional) && iopts == old(iopts)
      ensures defaults == old(defaults) && needsArg == old(needsArg)
    {
      var ds := if delims.Some? then delims.value else "=";
      AddRule(LongPat, LongOptsH(ds));
    }

    /** `stopper(opt)`: a literal rule for `opt`, or for "--" when `opt` is
        missing or empty. */
    method AddStopper(opt: Option<string>)
      requires Valid()
      modifies this
      ensures Valid()
      ensures rules == old(rules) + [Rule(Exact(if opt.None? || opt.value == "" then "--" else opt.value), StopperH)]
      ensures required == old(required) && optional == old(optional) && iopts == old(iopts)
      ensures defaults == old(defaults) && needsArg == old(needsArg)
    {
      var text := if opt.None? || opt.value == "" then "--" else opt.value;
      AddRule(Exact(text), StopperH);
    }

    // -------------------------------------------------------------------
    // The handlers. Each gets the result and the pending tokens after its
    // own token was taken, and returns the pending tokens it leaves.

    /** The `option` handler. */
    method HandleOption(name: string, aliases: seq<string>, res: Result, pending: seq<string>)
      returns (rest: seq<string>, err: Option<ParseError>)
      modifies res
      ensures Agrees(OptionStep(rules, name, aliases, State(pending, old(res.positional), old(res.named))), rest, err, res)
    {
      rest, err := pending, None;
      if |pending| == 0 || Match(rules, pending[0]).Some? {
        err := Some(MissingValue(name));
        return;
      }
      var v := pending[0];
      rest := pending[1..];
      res.Set(Many(aliases), Str(v));
    }

    /** The `flag` handler. */
    method HandleFlag(aliases: seq<string>, res: Result, pending: seq<string>)
      returns (rest: seq<string>, err: Option<ParseError>)
      modifies res
      ensures Agrees(FlagStep(aliases, State(pending, old(res.positional), old(res.named))), rest, err, res)
    {
      rest, err := pending, None;
      res.Set(Many(aliases), Bool(true));
    }

    /** The `count` handler. */
    method HandleCount(name: string, aliases: seq<string>, res: Result, pending: seq<string>)
      returns (rest: seq<string>, err: Option<ParseError>)
      modifies res
      ensures Agrees(CountStep(name, aliases, State(pending, old(res.positional), old(res.named))), rest, err, res)
    {
      rest, err := pending, None;
      var count := CountNext(Lookup(res.named, name));
      res.Set(Many(aliases), count);
    }

    /** The `list` handler. */
    method HandleList(name: string, aliases: seq<string>, res: Result, pending: seq<string>)
      returns (rest: seq<string>, err: Option<ParseError>)
      modifies res
      ensures Agrees(ListStep(rules, name, aliases, State(pending, old(res.positional), old(res.named))), rest, err, res)
    {
      rest, err := pending, None;
      if |pending| == 0 || Match(rules, pending[0]).Some? {
        err := Some(MissingValue(name));
        return;
      }
      var base := ListBase(Lookup(res.named, name));
      if base.None? {
        err := Some(NotAList(name));
        return;
      }
      var list := base.value + [pending[0]];
      rest := pending[1..];
      res.Set(Many(aliases), List(list));
    }

    /** The `shortOpts` handler. */
    method HandleShortOpts(arg: string, res: Result, pending: seq<string>)
      returns (rest: seq<string>, err: Option<ParseError>)
      requires |arg| >= 2
      modifies res
      ensures Agrees(ShortOptsStep(needsArg, arg, State(pending, old(res.positional), old(res.named))), rest, err, res)
    {
      rest, err := pending, None;
      if |arg| == 2 {
        res.named := res.named[arg := Bool(true)];
      } else {
        var prefix := if arg[..2] in needsArg then "" else "-";
        rest := [prefix + arg[2..]] + rest;
        rest := [arg[..2]] + rest;
      }
    }

    /** The `longOpts` handler, with its scan for a delimiter from index 3. */
    method HandleLongOpts(delims: string, arg: string, res: Result, pending: seq<string>)
      returns (rest: seq<string>, err: Option<ParseError>)
      modifies res
      ensures Agrees(LongOptsStep(rules, needsArg, delims, arg, State(pending, old(res.positional), old(res.named))), rest, err, res)
    {
      rest, err := pending, None;
      var i := 3;
      while i < |arg|
        invariant 3 <= i
        invariant FirstDelim(arg, delims, i) == FirstDelim(arg, delims, 3)
        invariant res.positional == old(res.positional) && res.named == old(res.named)
        decreases |arg| - i
      {
        if arg[i] in delims {
          var opt := arg[..i];
          var val := arg[i + 1..];
          if ExactMatch(rules, opt).Some? && opt !in needsArg {
            err := Some(UnexpectedArgument(opt));
            return;
          }
          res.named := res.named[opt := Str(val)];
          return;
        }
        i := i + 1;
      }
      if |pending| > 0 && Match(rules, pending[0]).None? {
        res.named := res.named[arg := Str(pending[0])];
        rest := pending[1..];
      } else {
        res.named := res.named[arg := Bool(true)];
      }
    }

    /** The `stopper` handler: shift tokens onto the positional list until
        none is left or an empty one is shifted. */
    method HandleStopper(res: Result, pending: seq<string>)
      returns (rest: seq<string>, err: Option<ParseError>)
      modifies res
      ensures Agrees(StopperStep(State(pending, old(res.positional), old(res.named))), rest, err, res)
    {
      rest, err := pending, None;
      while rest != [] && rest[0] != ""
        invariant res.positional + Drain(rest).0 == old(res.positional) + Drain(pending).0
        invariant Drain(rest).1 == Drain(pending).1
        invariant res.named == old(res.named)
        decreases |rest|
      {
        var val := rest[0];
        ghost var tail := Drain(rest[1..]);
        assert Drain(rest) == ([val] + tail.0, tail.1);
        assert res.positional + ([val] + tail.0) == (res.positional + [val]) + tail.0;
        rest := rest[1..];
        res.Push(val);
      }
      if rest != [] {
        assert Drain(rest) == ([], rest[1..]);
        rest := rest[1..];
      }
      assert res.positional + [] == res.positional;
    }

    /** Calling the handler a rule holds. */
    method Dispatch(h: Handler, arg: string, res: Result, pending: seq<string>)
      returns (rest: seq<string>, err: Option<ParseError>)
      requires h.ShortOptsH? ==> |arg| >= 2
      modifies res
      ensures Agrees(Apply(Snapshot(), h, arg, State(pending, old(res.positional), old(res.named))), rest, err, res)
    {
      match h
      case OptionH(name, aliases) => rest, err := HandleOption(name, aliases, res, pending);
      case FlagH(aliases) => rest, err := HandleFlag(aliases, res, pending);
      case CountH(name, aliases) => rest, err := HandleCount(name, aliases, res, pending);
      case ListH(name, aliases) => rest, err := HandleList(name, aliases, res, pending);
      case ShortOptsH => rest, err := HandleShortOpts(arg, res, pending);
      case LongOptsH(delims) => rest, err := HandleLongOpts(delims, arg, res, pending);
      case StopperH => rest, err := HandleStopper(res, pending);
    }

    // -------------------------------------------------------------------
    // Positional redistribution and the whole parse.

    /** `applyPositional(result)`: each required name in order takes the
        front token, or from the insertion index on the token at
        `max(0, length - |required| + i)`, failing when none is left; then
        each optional name takes the front token while any is left. */
    method ApplyPositional(res: Result) returns (err: Option<ParseError>)
      modifies res
      ensures var r := Positional.Assign(required, optional, iopts, old(res.positional), old(res.named));
              && (r.Fail? <==> err.Some?)
              && (r.Fail? ==> err == Some(r.error))
              && (r.Ok? ==> res.positional == r.value.positional && res.named == r.value.named)
    {
      err := None;
      var whole := Positional.RequiredFrom(required, iopts, 0, res.positional, res.named);
      var i := 0;
      while i < |required|
        invariant 0 <= i <= |required|
        invariant Positional.RequiredFrom(required, iopts, i, res.positional, res.named) == whole
      {
        var name := required[i];
        if |res.positional| == 0 {
          err := Some(MissingArgument(name));
          return;
        }
        if iopts.None? || i < iopts.value {
          res.named := res.named[name := Str(res.positional[0])];
          res.positional := res.positional[1..];
        } else {
          var offset := Positional.Max(0, |res.positional| - |required| + i);
          var v := res.positional[offset];
          res.positional := res.positional[..offset] + res.positional[offset + 1..];
          res.named := res.named[name := Str(v)];
        }
        i := i + 1;
      }
      var last := Positional.OptionalFrom(optional, 0, res.positional, res.named);
      var j := 0;
      while j < |optional|
        invariant 0 <= j <= |optional|
        invariant Positional.OptionalFrom(optional, j, res.positional, res.named) == last
      {
        if |res.positional| > 0 {
          res.named := res.named[optional[j] := Str(res.positional[0])];
          res.positional := res.positional[1..];
        }
        j := j + 1;
      }
    }

    /** `parse(args)`: copy the tokens, start a result from the defaults, run
        the loop, then redistribute the positional tokens. The caller's array
        is left as it was. */
    method Parse(args: array<string>) returns (res: Result, err: Option<ParseError>)
      requires Valid()
      ensures fresh(res)
      ensures args[..] == old(args[..])
      ensures var spec := ParseSpec(Snapshot(), args[..]);
              && (spec.Fail? <==> err.Some?)
              && (spec.Fail? ==> err == Some(spec.error))
              && (spec.Ok? ==> res.positional == spec.value.positional && res.named == spec.value.named)
    {
      var d := Snapshot();
      var initial := GetDefaults();
      res := new Result(Some(initial));
      err := None;
      var pending := args[..];
      while pending != [] && pending[0] != ""
        invariant fresh(res)
        invariant Run(d, pending, res.positional, res.named) == Run(d, args[..], [], d.defaults)
        decreases Measure(pending)
      {
        var arg := pending[0];
        var more := pending[1..];
        assert pending == [arg] + more;
        var h := Match(rules, arg);
        if h.None? {
          res.Push(arg);
          pending := more;
        } else {
          RunStep(d, arg, more, res.positional, res.named, h.value);
          ghost var before := State(more, res.positional, res.named);
          HandlerProgress(d, h.value, arg, before);
          var rest, e := Dispatch(h.value, arg, res, more);
          if e.Some? {
            err := e;
            return;
          }
          pending := rest;
        }
      }
      err := ApplyPositional(res);
    }
  }
}

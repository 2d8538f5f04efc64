/** The behaviours test/test-squabble.js describes, stated as lemmas about
    the parse of concrete declarations, and the builder calls that produce
    those declarations. */
module Scenarios {
  import opened Values
  import opened Rules
  import opened Engine
  import Positional
  import opened ArgParsers

  function Empty(): Declarations
  {
    Declarations([], [], [], None, map[], [])
  }

  /** Tokens no rule claims pass through to the positional list. */
  lemma PassThrough()
    ensures ParseSpec(Empty(), ["hey", "ya"]) == Ok(Parsed(["hey", "ya"], map[]))
  {
    ParsePassThrough(Empty(), ["hey", "ya"]);
  }

  /** `required("FOO")`. */
  function RequiredFoo(): Declarations
  {
    Declarations([], ["FOO"], [], None, map[], [])
  }

  /** The required name takes the first token and the rest stays positional;
      with no token at all the parse fails naming it. */
  lemma RequiredTakesFirst()
    ensures ParseSpec(RequiredFoo(), ["foo", "bar"]) == Ok(Parsed(["bar"], map["FOO" := Str("foo")]))
    ensures ParseSpec(RequiredFoo(), []) == Fail(MissingArgument("FOO"))
  {
    var d := RequiredFoo();
    ParseUnclaimed(d, ["foo", "bar"]);
    Positional.AssignMatchesClosedForm(d.required, d.optional, d.iopts, ["foo", "bar"], map[]);
  }

  /** `optional("FOO")`. */
  function OptionalFoo(): Declarations
  {
    Declarations([], [], ["FOO"], Some(0), map["FOO" := Bool(false)], [])
  }

  /** The optional name takes the first token, and keeps false without one. */
  lemma OptionalTakesFirst()
    ensures ParseSpec(OptionalFoo(), ["foo", "bar"]) == Ok(Parsed(["bar"], map["FOO" := Str("foo")]))
    ensures ParseSpec(OptionalFoo(), []) == Ok(Parsed([], map["FOO" := Bool(false)]))
  {
    var d := OptionalFoo();
    ParseUnclaimed(d, ["foo", "bar"]);
    Positional.AssignMatchesClosedForm(d.required, d.optional, d.iopts, ["foo", "bar"], d.defaults);
    assert d.defaults["FOO" := Str("foo")] == map["FOO" := Str("foo")];
  }

  /** `required("FOO").optional("BAR").required("BAZ").optional("BANG").optional("BIFF")`. */
  function Positions(): Declarations
  {
    Declarations([], ["FOO", "BAZ"], ["BAR", "BANG", "BIFF"], Some(1),
                 map["BAR" := Bool(false), "BANG" := Bool(false), "BIFF" := Bool(false)], [])
  }

  /** The optional names sit where the first of them was declared: BAR and
      BANG come before BAZ, and BIFF finds no token. */
  lemma OptionalPosition()
    ensures var r := ParseSpec(Positions(), ["a", "b", "c", "d"]);
            && r.Ok? && r.value.positional == []
            && r.value.named == map["FOO" := Str("a"), "BAR" := Str("b"), "BAZ" := Str("d"),
                                    "BANG" := Str("c"), "BIFF" := Bool(false)]
  {
    var d := Positions();
    var args := ["a", "b", "c", "d"];
    var m := d.defaults["FOO" := Str("a")]["BAZ" := Str("d")];
    assert m["BAR" := Str("b")]["BANG" := Str("c")]
           == map["FOO" := Str("a"), "BAR" := Str("b"), "BAZ" := Str("d"), "BANG" := Str("c"), "BIFF" := Bool(false)];
    PositionsRequired();
    PositionsOptional();
    assert Positional.Assign(d.required, d.optional, d.iopts, args, d.defaults)
           == Ok(Parsed([], m["BAR" := Str("b")]["BANG" := Str("c")]));
    ParseUnclaimed(d, args);
  }

  /** FOO takes the first token and BAZ the last. */
  lemma PositionsRequired()
    ensures var d := Positions();
            Positional.RequiredFrom(d.required, d.iopts, 0, ["a", "b", "c", "d"], d.defaults)
            == Ok(Parsed(["b", "c"], d.defaults["FOO" := Str("a")]["BAZ" := Str("d")]))
  {
    var d := Positions();
    var left := ["b", "c", "d"];
    assert left[..2] + left[3..] == ["b", "c"];
    assert Positional.RequiredFrom(d.required, d.iopts, 1, ["b", "c", "d"], d.defaults["FOO" := Str("a")])
           == Ok(Parsed(["b", "c"], d.defaults["FOO" := Str("a")]["BAZ" := Str("d")]));
  }

  /** BAR and BANG take the two tokens in between. */
  lemma PositionsOptional()
    ensures var d := Positions();
            var m := d.defaults["FOO" := Str("a")]["BAZ" := Str("d")];
            Positional.OptionalFrom(d.optional, 0, ["b", "c"], m) == Parsed([], m["BAR" := Str("b")]["BANG" := Str("c")])
  {
  }

  /** `option("FOO")`. */
  function OptionFoo(): Declarations
  {
    Declarations([Rule(Exact("FOO"), OptionH("FOO", ["FOO"]))], [], [], None, map["FOO" := Bool(false)], ["FOO"])
  }

  /** An option takes the token after it, keeps its default false when
      absent, and fails when no token follows. */
  lemma OptionValue()
    ensures ParseSpec(OptionFoo(), ["FOO", "bar"]) == Ok(Parsed([], map["FOO" := Str("bar")]))
    ensures ParseSpec(OptionFoo(), []) == Ok(Parsed([], map["FOO" := Bool(false)]))
    ensures ParseSpec(OptionFoo(), ["FOO"]) == Fail(MissingValue("FOO"))
  {
    var d := OptionFoo();
    assert Match(d.rules, "FOO") == Some(OptionH("FOO", ["FOO"]));
    assert Match(d.rules, "bar").None?;
    RunStep(d, "FOO", ["bar"], [], d.defaults, OptionH("FOO", ["FOO"]));
    RunStep(d, "FOO", [], [], d.defaults, OptionH("FOO", ["FOO"]));
    assert Assigned(d.defaults, ["FOO"], Str("bar")) == map["FOO" := Str("bar")];
  }

  /** An option takes an empty token as its value, so the loop does not stop
      at it: the token after it stays positional. */
  lemma EmptyTokenAsValue()
    ensures ParseSpec(OptionFoo(), ["FOO", "", "x"]) == Ok(Parsed(["x"], map["FOO" := Str("")]))
  {
    var d := OptionFoo();
    assert Match(d.rules, "FOO") == Some(OptionH("FOO", ["FOO"]));
    assert Match(d.rules, "").None? && Match(d.rules, "x").None?;
    var named := map["FOO" := Str("")];
    assert Assigned(d.defaults, ["FOO"], Str("")) == named;
    assert ["FOO", "", "x"] == ["FOO"] + ["", "x"] && ["", "x"][1..] == ["x"];
    assert Run(d, ["x"], [], named) == Ok(Parsed(["x"], named)) by {
      RunUnmatched(d, ["x"], [], [], named);
      assert ["x"] + [] == ["x"] && [] + ["x"] == ["x"];
    }
    RunStep(d, "FOO", ["", "x"], [], d.defaults, OptionH("FOO", ["FOO"]));
  }

  /** `flag("FOO")`. */
  function FlagFoo(): Declarations
  {
    Declarations([Rule(Exact("FOO"), FlagH(["FOO"]))], [], [], None, map["FOO" := Bool(false)], [])
  }

  /** A flag is true when present and false otherwise. */
  lemma FlagValue()
    ensures ParseSpec(FlagFoo(), ["FOO"]) == Ok(Parsed([], map["FOO" := Bool(true)]))
    ensures ParseSpec(FlagFoo(), []) == Ok(Parsed([], map["FOO" := Bool(false)]))
  {
    var d := FlagFoo();
    assert Match(d.rules, "FOO") == Some(FlagH(["FOO"]));
    RunStep(d, "FOO", [], [], d.defaults, FlagH(["FOO"]));
    assert Assigned(d.defaults, ["FOO"], Bool(true)) == map["FOO" := Bool(true)];
  }

  /** `count("FOO")`. */
  function CountFoo(): Declarations
  {
    Declarations([Rule(Exact("FOO"), CountH("FOO", ["FOO"]))], [], [], None, map["FOO" := Int(0)], [])
  }

  /** A counter counts its occurrences. */
  lemma CountValue()
    ensures ParseSpec(CountFoo(), ["FOO"]) == Ok(Parsed([], map["FOO" := Int(1)]))
    ensures ParseSpec(CountFoo(), ["FOO", "FOO"]) == Ok(Parsed([], map["FOO" := Int(2)]))
  {
    CountTimes(1, ["FOO"]);
    CountTimes(2, ["FOO", "FOO"]);
  }

  /** n occurrences of the counter count n. */
  lemma CountTimes(n: nat, args: seq<string>)
    requires n >= 1 && args == Repeat("FOO", n)
    ensures ParseSpec(CountFoo(), args) == Ok(Parsed([], map["FOO" := Int(n)]))
  {
    var d := CountFoo();
    assert Match(d.rules, "FOO") == Some(CountH("FOO", ["FOO"]));
    assert args + [] == args;
    assert Assigned(d.defaults, ["FOO"], Int(n)) == map["FOO" := Int(n)];
    CountRepeated(d, "FOO", ["FOO"], n, [], [], d.defaults, 0, n);
  }

  /** `list("FOO")`. */
  function ListFoo(): Declarations
  {
    Declarations([Rule(Exact("FOO"), ListH("FOO", ["FOO"]))], [], [], None, map["FOO" := List([])], ["FOO"])
  }

  /** A list collects the value after each occurrence, in order, and fails
      when no value follows. */
  lemma ListValue()
    ensures ParseSpec(ListFoo(), ["FOO", "bar", "FOO", "baz"]) == Ok(Parsed([], map["FOO" := List(["bar", "baz"])]))
    ensures ParseSpec(ListFoo(), ["FOO"]) == Fail(MissingValue("FOO"))
  {
    ListCollects();
    ListNeedsValue();
  }

  lemma ListCollects()
    ensures ParseSpec(ListFoo(), ["FOO", "bar", "FOO", "baz"]) == Ok(Parsed([], map["FOO" := List(["bar", "baz"])]))
  {
    var d := ListFoo();
    assert Match(d.rules, "FOO") == Some(ListH("FOO", ["FOO"]));
    assert Match(d.rules, "bar").None? && Match(d.rules, "baz").None?;
    assert Pairs("FOO", ["bar", "baz"]) + [] == ["FOO", "bar", "FOO", "baz"] by {
      assert Pairs("FOO", ["bar", "baz"][1..]) == ["FOO", "baz"];
    }
    assert Assigned(d.defaults, ["FOO"], List(["bar", "baz"])) == map["FOO" := List(["bar", "baz"])];
    ListRepeated(d, "FOO", ["FOO"], ["bar", "baz"], [], [], d.defaults, [], ["bar", "baz"]);
  }

  lemma ListNeedsValue()
    ensures ParseSpec(ListFoo(), ["FOO"]) == Fail(MissingValue("FOO"))
  {
    var d := ListFoo();
    assert Match(d.rules, "FOO") == Some(ListH("FOO", ["FOO"]));
    assert ["FOO"] == ["FOO"] + [];
    RunStep(d, "FOO", [], [], d.defaults, ListH("FOO", ["FOO"]));
  }

  /** `shortOpts()`. */
  function Short(): Declarations
  {
    Declarations([Rule(ShortPat, ShortOptsH)], [], [], None, map[], [])
  }

  /** A bundle of short options sets each of them. */
  lemma ShortBundleSetsEach()
    ensures ParseSpec(Short(), ["-opt"]) == Ok(Parsed([], map["-o" := Bool(true), "-p" := Bool(true), "-t" := Bool(true)]))
  {
    var names := ["-o", "-p", "-t"];
    assert names[..2] == ["-o", "-p"] && names[..2][..1] == ["-o"] && names[..2][..1][..0] == [];
    assert "-o"[1] != "-p"[1] && "-o"[1] != "-t"[1] && "-p"[1] != "-t"[1];
    assert Assigned(map[], ["-o"], Bool(true)) == map["-o" := Bool(true)];
    assert Assigned(map[], ["-o", "-p"], Bool(true)) == map["-o" := Bool(true), "-p" := Bool(true)];
    ShortBundleRun(map[]);
  }

  /** The loop part of the scenario above, from any named values. */
  lemma ShortBundleRun(named: map<string, Value>)
    ensures Run(Short(), ["-opt"], [], named) == Ok(Parsed([], Assigned(named, ["-o", "-p", "-t"], Bool(true))))
  {
    var d := Short();
    var cs := "opt";
    assert ShortPattern("-opt") && ShortPattern("-pt") && ShortPattern("-t");
    assert ShortPattern("-o") && ShortPattern("-p");
    assert "-" + cs[0..] == "-opt" && "-" + cs[1..] == "-pt" && "-" + cs[2..] == "-t";
    assert "-" + [cs[0]] == "-o" && "-" + [cs[1]] == "-p" && "-" + [cs[2]] == "-t";
    forall i | 0 <= i < |cs|
      ensures Match(d.rules, "-" + cs[i..]) == Some(ShortOptsH) && Match(d.rules, "-" + [cs[i]]) == Some(ShortOptsH)
    {
      assert i == 0 || i == 1 || i == 2;
    }
    assert ShortNames(cs) == ["-o", "-p", "-t"];
    assert ["-" + cs] + [] == ["-opt"];
    ShortBundle(d, cs, [], [], named);
  }

  /** `shortOpts().option("-o")`. */
  function ShortWithO(): Declarations
  {
    Declarations([Rule(ShortPat, ShortOptsH), Rule(Exact("-o"), OptionH("-o", ["-o"]))], [], [], None,
                 map["-o" := Bool(false)], ["-o"])
  }

  /** A short option is not taken as an option's value. */
  lemma ShortNotAValue()
    ensures ParseSpec(ShortWithO(), ["-o", "-p"]) == Fail(MissingValue("-o"))
  {
    var d := ShortWithO();
    assert Match(d.rules, "-o") == Some(OptionH("-o", ["-o"]));
    assert Match(d.rules, "-p") == Some(ShortOptsH) by { assert ShortPattern("-p"); }
    RunStep(d, "-o", ["-p"], [], d.defaults, OptionH("-o", ["-o"]));
  }

  /** `shortOpts().option("-f")`, for any letter f. */
  function ShortWith(f: char): Declarations
  {
    var name := "-" + [f];
    Declarations([Rule(ShortPat, ShortOptsH), Rule(Exact(name), OptionH(name, [name]))], [], [], None,
                 map[name := Bool(false)], [name])
  }

  /** `-ofFOO`: the letters before an option letter are set to true, and the
      text after it is that option's value. */
  lemma ShortAdjoined(o: char, f: char, v: string)
    requires o != f && o != '-' && f != '-'
    requires v != [] && v[0] != '-'
    ensures ParseSpec(ShortWith(f), ["-" + [o, f] + v])
            == Ok(Parsed([], map["-" + [f] := Str(v), "-" + [o] := Bool(true)]))
  {
    var d := ShortWith(f);
    var head, name := "-" + [o], "-" + [f];
    assert head[1] != name[1];
    var named := d.defaults[head := Bool(true)];
    assert Assigned(named, [name], Str(v)) == map[name := Str(v), head := Bool(true)];
    ShortAdjoinedRun(o, f, v, d.defaults);
  }

  /** The loop part of the scenario above, from any named values. */
  lemma ShortAdjoinedRun(o: char, f: char, v: string, named: map<string, Value>)
    requires o != f && o != '-' && f != '-'
    requires v != [] && v[0] != '-'
    ensures Run(ShortWith(f), ["-" + [o, f] + v], [], named)
            == Ok(Parsed([], Assigned(named["-" + [o] := Bool(true)], ["-" + [f]], Str(v))))
  {
    var d := ShortWith(f);
    var arg, head, name, tail := "-" + [o, f] + v, "-" + [o], "-" + [f], "-" + [f] + v;
    assert head[1] != name[1];
    assert arg[..2] == head && "-" + arg[2..] == tail;
    assert ShortPattern(arg) && ShortPattern(head) && ShortPattern(tail);
    assert arg != name && tail != name && v != name;
    assert Match(d.rules, arg) == Some(ShortOptsH) && Match(d.rules, head) == Some(ShortOptsH);
    assert Match(d.rules, tail) == Some(ShortOptsH) && Match(d.rules, v).None?;
    ExactWins(d.rules, name, 1);
    assert [arg] + [] == [arg] && [tail] + [] == [tail];
    assert [head, "-" + arg[2..]] + [] == [head] + [tail];
    AdjoinedValue(d, f, v, name, [name], [], [], named[head := Bool(true)]);
    ShortSingle(d, head, [tail], [], named);
    ShortSplit(d, arg, [], [], named);
  }

  /** `longOpts(delims)`. */
  function Long(delims: string): Declarations
  {
    Declarations([Rule(LongPat, LongOptsH(delims))], [], [], None, map[], [])
  }

  /** A long option with nothing after it is true. */
  lemma LongFlag()
    ensures ParseSpec(Long("="), ["--foo"]) == Ok(Parsed([], map["--foo" := Bool(true)]))
  {
    var d := Long("=");
    assert LongPattern("--foo");
    assert forall j :: 3 <= j < |"--foo"| ==> "--foo"[j] !in "=";
    assert ["--foo"] + [] == ["--foo"];
    LongAloneRun(d, "=", "--foo", [], [], map[]);
  }

  /** `longOpts().option("--opt")`. */
  function LongWithOpt(): Declarations
  {
    Declarations([Rule(LongPat, LongOptsH("=")), Rule(Exact("--opt"), OptionH("--opt", ["--opt"]))], [], [], None,
                 map["--opt" := Bool(false)], ["--opt"])
  }

  /** A long option is not taken as an option's value. */
  lemma LongNotAValue()
    ensures ParseSpec(LongWithOpt(), ["--opt", "--foo"]) == Fail(MissingValue("--opt"))
  {
    var d := LongWithOpt();
    ExactWins(d.rules, "--opt", 1);
    assert LongPattern("--foo");
    assert Match(d.rules, "--foo").Some?;
    RunStep(d, "--opt", ["--foo"], [], d.defaults, OptionH("--opt", ["--opt"]));
  }

  /** `--name=value` sets the name before the delimiter; a token with another
      character in that place is a name of its own, set to true. */
  lemma LongDelimitedValue()
    ensures ParseSpec(Long("="), ["--foo=bar", "--bar:baz"])
            == Ok(Parsed([], map["--foo" := Str("bar"), "--bar:baz" := Bool(true)]))
  {
    LongDelimitedValueRun(map[]);
  }

  /** The loop part of the scenario above, from any named values. */
  lemma LongDelimitedValueRun(named: map<string, Value>)
    ensures Run(Long("="), ["--foo=bar", "--bar:baz"], [], named)
            == Ok(Parsed([], named["--foo" := Str("bar")]["--bar:baz" := Bool(true)]))
  {
    var d := Long("=");
    var a1, a2 := "--foo=bar", "--bar:baz";
    assert LongPattern(a1) && LongPattern(a2);
    assert a1[..5] == "--foo" && a1[6..] == "bar" && a1[5] == '=';
    assert forall j :: 3 <= j < 5 ==> a1[j] !in "=";
    assert forall j :: 3 <= j < |a2| ==> a2[j] !in "=";
    assert [a1, a2] == [a1] + [a2] && [a2] + [] == [a2];
    LongAloneRun(d, "=", a2, [], [], named["--foo" := Str("bar")]);
    LongDelimitedRun(d, "=", a1, 5, [a2], [], named);
  }

  /** With the delimiters `>` and `:`, either one splits a long option, and
      `=` no longer does. */
  lemma LongCustomDelimiters()
    ensures ParseSpec(Long(">:"), ["--baz>bang", "--biff:bong", "--foo=bar"])
            == Ok(Parsed([], map["--baz" := Str("bang"), "--biff" := Str("bong"), "--foo=bar" := Bool(true)]))
  {
    LongCustomRun(map[]);
  }

  /** The loop part of the scenario above, from any named values. */
  lemma LongCustomRun(named: map<string, Value>)
    ensures Run(Long(">:"), ["--baz>bang", "--biff:bong", "--foo=bar"], [], named)
            == Ok(Parsed([], named["--baz" := Str("bang")]["--biff" := Str("bong")]["--foo=bar" := Bool(true)]))
  {
    var d := Long(">:");
    var a1 := "--baz>bang";
    assert LongPattern(a1);
    assert a1[..5] == "--baz" && a1[6..] == "bang" && a1[5] == '>';
    assert forall j :: 3 <= j < 5 ==> a1[j] !in ">:";
    assert [a1, "--biff:bong", "--foo=bar"] == [a1] + ["--biff:bong", "--foo=bar"];
    LongCustomRest(named["--baz" := Str("bang")]);
    LongDelimitedRun(d, ">:", a1, 5, ["--biff:bong", "--foo=bar"], [], named);
  }

  /** The last two tokens of the scenario above. */
  lemma LongCustomRest(named: map<string, Value>)
    ensures Run(Long(">:"), ["--biff:bong", "--foo=bar"], [], named)
            == Ok(Parsed([], named["--biff" := Str("bong")]["--foo=bar" := Bool(true)]))
  {
    var d := Long(">:");
    var a2, a3 := "--biff:bong", "--foo=bar";
    assert LongPattern(a2) && LongPattern(a3);
    assert a2[..6] == "--biff" && a2[7..] == "bong" && a2[6] == ':';
    assert forall j :: 3 <= j < 6 ==> a2[j] !in ">:";
    assert forall j :: 3 <= j < |a3| ==> a3[j] !in ">:";
    assert [a2, a3] == [a2] + [a3] && [a3] + [] == [a3];
    LongAloneRun(d, ">:", a3, [], [], named["--biff" := Str("bong")]);
    LongDelimitedRun(d, ">:", a2, 6, [a3], [], named);
  }

  /** `shortOpts().stopper(stop)`. */
  function ShortStopper(stop: string): Declarations
  {
    Declarations([Rule(ShortPat, ShortOptsH), Rule(Exact(stop), StopperH)], [], [], None, map[], [])
  }

  /** Options before the stopper are handled; every token after it is
      positional, whether it looks like an option or not. */
  lemma StopperEndsOptions(stop: string)
    requires stop != "" && stop != "-a"
    ensures ParseSpec(ShortStopper(stop), ["-a", stop, "-b"]) == Ok(Parsed(["-b"], map["-a" := Bool(true)]))
  {
    var d := ShortStopper(stop);
    assert ShortPattern("-a");
    assert Match(d.rules, "-a") == Some(ShortOptsH);
    ExactWins(d.rules, stop, 1);
    assert ["-a", stop, "-b"] == ["-a"] + [stop, "-b"] && [stop, "-b"] == [stop] + ["-b"];
    assert [] + ["-b"] == ["-b"];
    StopperMovesRest(d, stop, ["-b"], [], map["-a" := Bool(true)]);
    RunStep(d, "-a", [stop, "-b"], [], map[], ShortOptsH);
  }

  /** `default("foo", "bar", "baz")`: without tokens both names hold the value. */
  lemma DefaultValue()
    ensures var d := Declarations([], [], [], None, Assigned(map[], ["foo", "bar"], Str("baz")), []);
            ParseSpec(d, []) == Ok(Parsed([], map["foo" := Str("baz"), "bar" := Str("baz")]))
  {
    assert "foo"[0] != "bar"[0];
    assert ["foo", "bar"][..1] == ["foo"] && ["foo"][..0] == [];
    assert Assigned(map[], ["foo"], Str("baz")) == map["foo" := Str("baz")];
  }

  /** `createParser().default("foo", "bar", "baz").parse([])`, through the
      parser object: both names come back holding the value. */
  method DefaultThroughParser() returns (foo: Option<Value>, bar: Option<Value>, failed: bool)
    ensures !failed && foo == Some(Str("baz")) && bar == Some(Str("baz"))
  {
    var p := new ArgParser();
    p.SetDefault(["foo", "bar"], Str("baz"));
    var args := new string[0];
    assert args[..] == [];
    DefaultValue();
    var res, err := p.Parse(args);
    failed := err.Some?;
    foo, bar := Lookup(res.named, "foo"), Lookup(res.named, "bar");
  }

  /** `createParser().shortOpts().stopper().parse(["-a", "--", "-b"])`,
      through the parser object: one positional token, `-b`, and `-a` true. */
  method StopperThroughParser() returns (positional: seq<string>, a: Option<Value>, failed: bool)
    ensures !failed && positional == ["-b"] && a == Some(Bool(true))
  {
    var p := new ArgParser();
    p.EnableShortOpts();
    p.AddStopper(None);
    var args := new string[3];
    args[0], args[1], args[2] := "-a", "--", "-b";
    assert args[..] == ["-a", "--", "-b"];
    assert p.Snapshot() == ShortStopper("--");
    StopperEndsOptions("--");
    var res, err := p.Parse(args);
    failed := err.Some?;
    positional, a := res.positional, Lookup(res.named, "-a");
  }

  // ---------------------------------------------------------------------
  // The declarations above, built with the parser object's builder calls.

  /** `createParser().required("FOO")`. */
  method BuiltRequired() returns (d: Declarations)
    ensures d == RequiredFoo()
  {
    var p := new ArgParser();
    p.AddRequired("FOO");
    d := p.Snapshot();
  }

  /** `createParser().optional("FOO")`. */
  method BuiltOptional() returns (d: Declarations)
    ensures d == OptionalFoo()
  {
    var p := new ArgParser();
    p.AddOptional("FOO");
    d := p.Snapshot();
  }

  /** `required("FOO").optional("BAR").required("BAZ").optional("BANG").optional("BIFF")`:
      the insertion index is fixed by BAR, after one required name. */
  method BuiltPositions() returns (d: Declarations)
    ensures d == Positions()
  {
    var p := new ArgParser();
    p.AddRequired("FOO");
    p.AddOptional("BAR");
    p.AddRequired("BAZ");
    p.AddOptional("BANG");
    p.AddOptional("BIFF");
    d := p.Snapshot();
  }

  /** `createParser().option("FOO")`. */
  method BuiltOption() returns (d: Declarations)
    ensures d == OptionFoo()
  {
    var p := new ArgParser();
    p.AddOption(["FOO"]);
    d := p.Snapshot();
  }

  /** `createParser().flag("FOO")`. */
  method BuiltFlag() returns (d: Declarations)
    ensures d == FlagFoo()
  {
    var p := new ArgParser();
    p.AddFlag(["FOO"]);
    d := p.Snapshot();
  }

  /** `createParser().count("FOO")`. */
  method BuiltCount() returns (d: Declarations)
    ensures d == CountFoo()
  {
    var p := new ArgParser();
    p.AddCount(["FOO"]);
    d := p.Snapshot();
  }

  /** `createParser().list("FOO")`. */
  method BuiltList() returns (d: Declarations)
    ensures d == ListFoo()
  {
    var p := new ArgParser();
    p.AddList(["FOO"]);
    d := p.Snapshot();
  }

  /** `createParser().shortOpts()`. */
  method BuiltShort() returns (d: Declarations)
    ensures d == Short()
  {
    var p := new ArgParser();
    p.EnableShortOpts();
    d := p.Snapshot();
  }

  /** `createParser().shortOpts().option("-f")`, for any letter f. */
  method BuiltShortWith(f: char) returns (d: Declarations)
    ensures d == ShortWith(f)
    ensures f == 'o' ==> d == ShortWithO()
  {
    var p := new ArgParser();
    p.EnableShortOpts();
    p.AddOption(["-" + [f]]);
    d := p.Snapshot();
    if f == 'o' {
      assert "-" + [f] == "-o";
    }
  }

  /** `createParser().longOpts()` and `createParser().longOpts(delims)`. */
  method BuiltLong(delims: Option<string>) returns (d: Declarations)
    ensures d == Long(if delims.Some? then delims.value else "=")
  {
    var p := new ArgParser();
    p.EnableLongOpts(delims);
    d := p.Snapshot();
  }

  /** `createParser().longOpts().option("--opt")`. */
  method BuiltLongWithOpt() returns (d: Declarations)
    ensures d == LongWithOpt()
  {
    var p := new ArgParser();
    p.EnableLongOpts(None);
    p.AddOption(["--opt"]);
    d := p.Snapshot();
  }

  /** `createParser().shortOpts().stopper(stop)`: an empty or missing token
      means "--". */
  method BuiltShortStopper(stop: Option<string>) returns (d: Declarations)
    ensures d == ShortStopper(if stop.None? || stop.value == "" then "--" else stop.value)
  {
    var p := new ArgParser();
    p.EnableShortOpts();
    p.AddStopper(stop);
    d := p.Snapshot();
  }
}

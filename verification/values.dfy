/** Values a parse result can hold, the ways a parse can fail, and the two
    ways the parser writes names into a named-value map. */
module Values {

  datatype Option<+T> = None | Some(value: T)

  /** What a name can be bound to: flags and unset options are booleans,
      options and positional names strings, counters integers, lists
      sequences of strings. */
  datatype Value = Bool(b: bool) | Str(s: string) | Int(n: int) | List(items: seq<string>)

  /** The errors a parse can abandon with, each carrying the offending name. */
  datatype ParseError =
    | MissingArgument(name: string)       // a required positional name found no token
    | MissingValue(option: string)        // an option or list found no usable value token
    | UnexpectedArgument(option: string)  // `--flag=value` for a name that takes no value
    | NotAList(name: string)              // a list handler found a non-list, truthy value

  datatype Outcome<+T> = Ok(value: T) | Fail(error: ParseError)

  /** The positional tokens and the named values a parse ends with. */
  datatype Parsed = Parsed(positional: seq<string>, named: map<string, Value>)

  /** `named[name]`, with JavaScript's `undefined` as None. */
  function Lookup(m: map<string, Value>, name: string): Option<Value>
  {
    if name in m then Some(m[name]) else None
  }

  /** JavaScript falsiness of a looked-up value (undefined, false, "" or 0). */
  predicate Falsy(v: Option<Value>)
  {
    v.None? || v == Some(Bool(false)) || v == Some(Str("")) || v == Some(Int(0))
  }

  /** Every name in `names`, one after another, set to the same value. */
  function Assigned(m: map<string, Value>, names: seq<string>, v: Value): (r: map<string, Value>)
    ensures forall k :: k in r <==> k in m || k in names
    ensures forall n :: n in names ==> r[n] == v
    ensures forall k :: k in m && k !in names ==> r[k] == m[k]
  {
    if names == [] then m
    else Assigned(m, names[..|names| - 1], v)[names[|names| - 1] := v]
  }

  /** `names[i]` set to `Str(vals[i])` for i in order, so a later name wins. */
  function AssignEach(m: map<string, Value>, names: seq<string>, vals: seq<string>): (r: map<string, Value>)
    requires |names| == |vals|
    decreases |names|
  {
    if names == [] then m
    else AssignEach(m[names[0] := Str(vals[0])], names[1..], vals[1..])
  }

  /** One step of `AssignEach`. */
  lemma AssignEachStep(m: map<string, Value>, names: seq<string>, vals: seq<string>)
    requires |names| == |vals| > 0
    ensures AssignEach(m, names, vals) == AssignEach(m[names[0] := Str(vals[0])], names[1..], vals[1..])
  {
  }

  /** Names outside the list keep their entry, and the listed ones gain one. */
  lemma {:induction false} AssignEachKeeps(m: map<string, Value>, names: seq<string>, vals: seq<string>, k: string)
    requires |names| == |vals|
    ensures k in AssignEach(m, names, vals) <==> k in m || k in names
    ensures k in m && k !in names ==> AssignEach(m, names, vals)[k] == m[k]
    decreases |names|
  {
    if names != [] {
      AssignEachKeeps(m[names[0] := Str(vals[0])], names[1..], vals[1..], k);
      assert k in names <==> k == names[0] || k in names[1..];
    }
  }

  /** A name not repeated later in the list ends up with its own value. */
  lemma {:induction false} AssignEachLastWins(m: map<string, Value>, names: seq<string>, vals: seq<string>, i: nat)
    requires |names| == |vals| && i < |names|
    requires names[i] !in names[i + 1..]
    ensures names[i] in AssignEach(m, names, vals) && AssignEach(m, names, vals)[names[i]] == Str(vals[i])
    decreases |names|
  {
    if i > 0 {
      assert names[1..][i - 1] == names[i] && names[1..][i..] == names[i + 1..];
      AssignEachLastWins(m[names[0] := Str(vals[0])], names[1..], vals[1..], i - 1);
    } else {
      AssignEachKeeps(m[names[0] := Str(vals[0])], names[1..], vals[1..], names[0]);
    }
  }

  /** The `for (name in values)` copy both the parser and the result make. */
  method CopyNamed(src: map<string, Value>) returns (dst: map<string, Value>)
    ensures dst == src
  {
    dst := map[];
    var todo := src.Keys;
    while todo != {}
      invariant todo <= src.Keys
      invariant dst == map k | k in src.Keys - todo :: src[k]
      decreases todo
    {
      var k :| k in todo;
      dst := dst[k := src[k]];
      todo := todo - {k};
    }
  }
}

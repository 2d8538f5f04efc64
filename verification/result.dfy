/** The parse result of lib/result.js: the positional tokens (the array the
    source's Result extends) and the `named` map. */
module Results {
  import opened Values

  /** `set` takes either one name or an array of names. */
  datatype NameArg = One(name: string) | Many(names: seq<string>)

  function NamesOf(n: NameArg): seq<string>
  {
    match n
    case One(name) => [name]
    case Many(names) => names
  }

  class Result {
    var positional: seq<string>
    var named: map<string, Value>

    /** A fresh result with no positional tokens whose named map holds exactly
        the given values; a missing values object counts as empty. */
    constructor (values: Option<map<string, Value>>)
      ensures positional == []
      ensures values.Some? ==> named == values.value
      ensures values.None? ==> named == map[]
    {
      var src := if values.Some? then values.value else map[];
      var copy := CopyNamed(src);
      positional := [];
      named := copy;
    }

    /** Give every listed name the same value; nothing else changes. */
    method Set(name: NameArg, value: Value)
      modifies this
      ensures positional == old(positional)
      ensures named == Assigned(old(named), NamesOf(name), value)
    {
      var names := NamesOf(name);
      var i := 0;
      while i < |names|
        invariant 0 <= i <= |names|
        invariant positional == old(positional)
        invariant named == Assigned(old(named), names[..i], value)
      {
        assert names[..i + 1][..i] == names[..i];
        named := named[names[i] := value];
        i := i + 1;
      }
      assert names[..i] == names;
    }

    /** Array.prototype.push of one positional token. */
    method Push(token: string)
      modifies this
      ensures positional == old(positional) + [token]
      ensures named == old(named)
    {
      positional := positional + [token];
    }
  }
}

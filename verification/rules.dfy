/** The parser's rule table: (matcher, handler) pairs and the lookup that
    picks the handler for a token (lib/arg-parser.js, `match` and
    `exactMatch`). */
module Rules {
  import opened Values

  /** A literal string, or one of the two regular expressions the built-in
      rules use: `/^-[^-]+/` (short options) and `/^--.+/` (long options). */
  datatype Matcher = Exact(text: string) | ShortPat | LongPat

  /** The built-in handler kinds, with what each handler closure captures:
      the name its rule was registered under, the whole alias list, the
      long-option delimiters. */
  datatype Handler =
    | OptionH(name: string, aliases: seq<string>)
    | FlagH(aliases: seq<string>)
    | CountH(name: string, aliases: seq<string>)
    | ListH(name: string, aliases: seq<string>)
    | ShortOptsH
    | LongOptsH(delims: string)
    | StopperH

  datatype Rule = Rule(matcher: Matcher, handler: Handler)

  /** The characters JavaScript's `.` does not match. */
  predicate LineTerminator(c: char)
  {
    c == '\n' || c == '\r' || c == '\U{2028}' || c == '\U{2029}'
  }

  /** `/^-[^-]+/.test(t)`: a dash, then at least one character that is not a dash. */
  predicate ShortPattern(t: string)
  {
    |t| >= 2 && t[0] == '-' && t[1] != '-'
  }

  /** `/^--.+/.test(t)`: two dashes, then a character that is not a line terminator. */
  predicate LongPattern(t: string)
  {
    |t| >= 3 && t[0] == '-' && t[1] == '-' && !LineTerminator(t[2])
  }

  /** Whether a pattern rule's regular expression accepts the token; a
      literal matcher is never a pattern. */
  predicate PatternMatches(m: Matcher, t: string)
  {
    match m
    case Exact(_) => false
    case ShortPat => ShortPattern(t)
    case LongPat => LongPattern(t)
  }

  /** A rule the model admits: a short-option handler must only ever see
      tokens of two or more characters, since on a shorter one the source's
      handler pushes back a token as long as the one it took and never ends. */
  predicate ValidRule(r: Rule)
  {
    r.handler.ShortOptsH? && r.matcher.Exact? ==> |r.matcher.text| >= 2
  }

  /** Index of the first literal rule equal to `arg`, scanning from `from`. */
  function FindExact(rules: seq<Rule>, arg: string, from: nat): (r: Option<nat>)
    requires from <= |rules|
    decreases |rules| - from
    ensures r.Some? ==> from <= r.value < |rules| && rules[r.value].matcher == Exact(arg)
    ensures r.Some? ==> forall j :: from <= j < r.value ==> rules[j].matcher != Exact(arg)
    ensures r.None? ==> forall j :: from <= j < |rules| ==> rules[j].matcher != Exact(arg)
  {
    if from == |rules| then None
    else if rules[from].matcher == Exact(arg) then Some(from)
    else FindExact(rules, arg, from + 1)
  }

  /** Index of the first pattern rule accepting `arg`, scanning from `from`. */
  function FindPattern(rules: seq<Rule>, arg: string, from: nat): (r: Option<nat>)
    requires from <= |rules|
    decreases |rules| - from
    ensures r.Some? ==> from <= r.value < |rules| && PatternMatches(rules[r.value].matcher, arg)
    ensures r.Some? ==> forall j :: from <= j < r.value ==> !PatternMatches(rules[j].matcher, arg)
    ensures r.None? ==> forall j :: from <= j < |rules| ==> !PatternMatches(rules[j].matcher, arg)
  {
    if from == |rules| then None
    else if PatternMatches(rules[from].matcher, arg) then Some(from)
    else FindPattern(rules, arg, from + 1)
  }

  /** The rule `match` picks: the first literal one if any, else the first pattern one. */
  function MatchIndex(rules: seq<Rule>, arg: string): Option<nat>
  {
    var e := FindExact(rules, arg, 0);
    if e.Some? then e else FindPattern(rules, arg, 0)
  }

  /** `exactMatch(arg)`: the handler of the first literal rule equal to `arg`. */
  function ExactMatch(rules: seq<Rule>, arg: string): (r: Option<Handler>)
    ensures r.Some? <==> exists i :: 0 <= i < |rules| && rules[i].matcher == Exact(arg)
    ensures r.Some? ==> exists i :: 0 <= i < |rules| && rules[i].matcher == Exact(arg) && r.value == rules[i].handler
  {
    match FindExact(rules, arg, 0)
    case None => None
    case Some(i) => Some(rules[i].handler)
  }

  /** `match(arg)`: the handler the parser dispatches `arg` to, if any. */
  function Match(rules: seq<Rule>, arg: string): Option<Handler>
  {
    match MatchIndex(rules, arg)
    case None => None
    case Some(i) => Some(rules[i].handler)
  }

  /** A literal rule equal to the token wins over every pattern rule, wherever
      the pattern rules stand in the table; among literal rules the first
      registered wins. */
  lemma ExactWins(rules: seq<Rule>, arg: string, i: nat)
    requires i < |rules| && rules[i].matcher == Exact(arg)
    requires forall j :: 0 <= j < i ==> rules[j].matcher != Exact(arg)
    ensures Match(rules, arg) == Some(rules[i].handler)
    ensures ExactMatch(rules, arg) == Some(rules[i].handler)
  {
  }

  /** With no literal rule for the token, the first pattern rule that accepts
      it decides, and no rule at all means no handler. */
  lemma PatternFallback(rules: seq<Rule>, arg: string)
    requires forall j :: 0 <= j < |rules| ==> rules[j].matcher != Exact(arg)
    ensures ExactMatch(rules, arg).None?
    ensures Match(rules, arg).Some? <==> exists j :: 0 <= j < |rules| && PatternMatches(rules[j].matcher, arg)
    ensures forall i :: 0 <= i < |rules| && PatternMatches(rules[i].matcher, arg)
                        && (forall j :: 0 <= j < i ==> !PatternMatches(rules[j].matcher, arg))
                        ==> Match(rules, arg) == Some(rules[i].handler)
  {
  }

  /** Under valid rules a short-option handler is only reached with a token of
      two or more characters. */
  lemma ShortOptsTokenLength(rules: seq<Rule>, arg: string)
    requires forall i :: 0 <= i < |rules| ==> ValidRule(rules[i])
    requires Match(rules, arg) == Some(ShortOptsH)
    ensures |arg| >= 2
  {
    var i := MatchIndex(rules, arg).value;
    assert ValidRule(rules[i]);
  }
}

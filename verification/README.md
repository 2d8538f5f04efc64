# squabble argument parser, modelled in Dafny

squabble is a command-line argument parser. A parser object records
declarations: literal rules for options, flags, counters and lists; rules
for GNU-style short-option bundles (`-abc`, `-ofVALUE`) and long options
(`--name=value`, `--name value`); a stopper token; and required and
optional positional names with their defaults. `parse` turns a list of
string tokens into a result. The result holds the leftover positional
tokens and a map from names to values.

This project models `lib/arg-parser.js` and `lib/result.js`:

- `values.dfy` (module `Values`): the value type (`Bool | Str | Int | List`), the
  parse errors, and the two ways names are written into a map. `Assigned`
  gives a list of names the same value. `AssignEach` gives names their own
  tokens in order.
- `result.dfy` (module `Results`): the `Result` class. Its fields are a
  positional sequence and a named map. It has the copying constructor, `set`
  and `push`.
- `rules.dfy` (module `Rules`): the rule table.
  - Matchers are a literal string or one of the two built-in regular
    expressions, `/^-[^-]+/` and `/^--.+/`.
  - Handlers are the seven built-in kinds.
  - `match` and `exactMatch` are written as first-index searches.
- `positional.dfy` (module `Positional`): `applyPositional` as functions that
  take one `forEach` step at a time. A closed form states the same
  assignment in one piece, and a lemma proves the two agree on every input.
- `engine.dfy` (module `Engine`): what one parse does, as functions.
  - Each built-in handler is a step on the state (pending tokens, positional
    tokens, named values).
  - The token loop of `parse` is `Run`, and the whole parse is `ParseSpec`.
  - `Run` terminates under the measure Σ 3^|t| over the pending tokens.
  - The loop lemmas cover repeated counters and lists, short-option bundles
    and long options.
- `arg_parser.dfy` (module `ArgParsers`): the `ArgParser` class.
  - Its fields are the rule table, the required and optional names, the
    optional insertion index, the defaults and `needsArg`.
  - The builder methods update those fields in place.
  - The handler methods change a `Result` and return the pending tokens they
    leave.
  - `ApplyPositional` and `Parse` are loops proved against
    `Positional.Assign` and `Engine.ParseSpec`.
- `scenarios.dfy` (module `Scenarios`): the behaviours
  `test/test-squabble.js` describes, stated as lemmas about concrete
  declarations and inputs. One method per builder shape shows that the
  parser object's builder calls record exactly those declarations, and two
  methods also run `Parse` on an array.

Exceptions thrown by a handler or by `applyPositional` become the `Fail`
outcome of a parse, with one error variant for each kind of throw:
`MissingArgument`, `MissingValue`, `UnexpectedArgument`, and `NotAList`. The
last is the TypeError the list handler meets when the matched name holds a
truthy value that is not an array (`lib/arg-parser.js:271-272`). For `true` or a
non-zero number it comes from `.slice`; for a non-empty string, `.slice`
succeeds and it comes from `push`. A failed parse yields no result,
just as the exception leaves the caller without one.

Where the written description of the system and the code differ, the model
follows the code:

- The stopper moves tokens to the positional list only up to the first
  empty token. It consumes that empty token, and the token loop then goes on
  with what follows it (`while (val = args.shift())` at
  `lib/arg-parser.js:354`). It does not drain every remaining token.
- A counter reads the count of the name whose token was matched, not the
  count of the first name of its declaration (`lib/arg-parser.js:241`). The
  two differ whenever the aliases hold different values. `default` can cause
  that, and so can any handler that writes only some of the names. For
  example, with `count("a", "b").flag("c", "b")` and the tokens `c b`, the
  counter matched on "b" reads `true` and gives 2 to both names, where
  reading "a" would give 1.
- The loop ends at an empty token only when the loop itself reads it
  (`lib/arg-parser.js:162`). An option or list handler takes an empty token
  as its value, and the stopper consumes one, and in both cases the loop goes
  on with the tokens after it.
- The counter's `(value || 0) + 1` is modelled with JavaScript's
  coercions: a falsy value counts as 0, `true` counts as 1, and a truthy
  string or array is turned into a string with "1" appended.

## Model

| member | source | states |
|---|---|---|
| Values.Assigned | lib/result.js:33-40 | every listed name ends up holding the value; names outside the list keep their entry; no other key appears |
| Values.AssignEachKeeps | lib/arg-parser.js:96-113 | the positional assignment adds exactly the listed names and leaves every other entry as it was |
| Values.AssignEachLastWins | lib/arg-parser.js:96-113 | a name not listed again later ends up with its own token |
| Values.CopyNamed | lib/result.js:22 | the `for (name in values)` copy yields a map equal to its source |
| Results.Result.constructor | lib/result.js:12-23 | a new result has no positional tokens and a named map equal to the given values, or empty when none are given |
| Results.Result.Set | lib/result.js:33-40 | with one name or a list of names, every listed name gets the value, nothing else in the map changes, and the positional list is untouched |
| Results.Result.Push | lib/arg-parser.js:170 | an unmatched token is appended to the positional list and the named map is unchanged |
| Rules.ExactMatch | lib/arg-parser.js:56-64 | `exactMatch` finds a handler exactly when some literal rule equals the token, and the handler it returns is one such rule's |
| Rules.Match | lib/arg-parser.js:35-48 | `match`: the first literal rule equal to the token, else the first pattern rule accepting it; its properties are the contracts of ExactWins and PatternFallback |
| Rules.FindExact | lib/arg-parser.js:56-64 | the index found is the first literal rule equal to the token; with none found, no literal rule equals it |
| Rules.FindPattern | lib/arg-parser.js:43-47 | the index found is the first pattern rule whose expression accepts the token; with none found, no pattern rule accepts it |
| Rules.ExactWins | lib/arg-parser.js:35-64 | the first literal rule equal to the token decides both `match` and `exactMatch`, wherever the pattern rules stand |
| Rules.PatternFallback | lib/arg-parser.js:35-48 | with no literal rule for the token, `exactMatch` finds nothing; `match` finds a handler exactly when some pattern accepts the token, and then it is the first such rule's handler |
| Rules.ShortOptsTokenLength | lib/arg-parser.js:288-300 | under valid rules the short-option handler only ever receives a token of two or more characters |
| Positional.RequiredFrom | lib/arg-parser.js:97-109 | a successful assignment of the required names removes exactly one token per name |
| Positional.OptionalFrom | lib/arg-parser.js:111-113 | the optional names remove min(names left, tokens left) tokens |
| Positional.RequiredShort | lib/arg-parser.js:97-101 | with fewer tokens than required names left, the parse fails naming the first required name no token reaches |
| Positional.RequiredFront | lib/arg-parser.js:103-104 | before the insertion index, each required name takes the front token |
| Positional.RequiredTail | lib/arg-parser.js:105-108 | from the insertion index on, each required name takes the token at max(0, length - number of required names + i), which is the token just after the spare ones, and the spare ones are what remains |
| Positional.RequiredAll | lib/arg-parser.js:97-109 | with enough tokens, the first k required names take the first k tokens and the others the last tokens, leaving the spare ones between them |
| Positional.OptionalPrefix | lib/arg-parser.js:111-113 | each optional name in order takes the front token while any is left, and keeps its value otherwise |
| Positional.OptionalMiddle | lib/arg-parser.js:111-113 | the optional names take the spare tokens in the middle of the list from the front |
| Positional.Assign | lib/arg-parser.js:96-114 | `applyPositional`, required names then optional ones: a failure names one of the required names; a success keeps every name set before and sets every required name |
| Positional.ClosedForm | lib/arg-parser.js:96-114 | the reference assignment in one piece: it fails exactly when there are fewer tokens than required names, and otherwise leaves d - min(d, number of optional names) of the d spare tokens positional |
| Positional.AssignMatchesClosedForm | lib/arg-parser.js:96-114 | the step-by-step redistribution equals the closed form on every input: failure exactly when tokens are short, naming the first unfilled required name; otherwise front names, tail names, then optional names, with the rest positional |
| Positional.AssignCounts | lib/arg-parser.js:96-114 | redistribution fails exactly when there are fewer tokens than required names; otherwise, with d spare tokens beyond the required names, d - min(d, number of optional names) tokens stay positional |
| Engine.CountNext | lib/arg-parser.js:241 | `(value or 0) + 1`: a number goes up by one; the result is a string exactly when the value is a non-empty string or an array |
| Engine.ListBase | lib/arg-parser.js:271-272 | `(value or []).slice()` and the `push` after it succeed exactly when the value is falsy or an array, giving the empty list or a copy of the array |
| Engine.OptionStep | lib/arg-parser.js:197-201 | the option handler fails only with a missing value; on success it consumes exactly the next token, keeps the positional tokens and removes no name |
| Engine.FlagStep | lib/arg-parser.js:219-221 | the flag handler always succeeds, consumes nothing, keeps the positional tokens and adds exactly its aliases to the names set |
| Engine.CountStep | lib/arg-parser.js:240-243 | the counter handler always succeeds, consumes nothing, keeps the positional tokens and adds exactly its aliases to the names set |
| Engine.ListStep | lib/arg-parser.js:265-274 | the list handler fails only with a missing value or a value that is not a list; on success it consumes exactly the next token, keeps the positional tokens and removes no name |
| Engine.ShortOptsStep | lib/arg-parser.js:288-300 | the short-option handler always succeeds; a longer token is put back as a two-character token and a rest that together spell the token, or the token with a dash after its first two characters, and the named values are untouched |
| Engine.LongOptsStep | lib/arg-parser.js:313-340 | the long-option handler fails only as an unexpected argument naming the text before a delimiter at index 3 or later; on success it consumes at most the next token and removes no name |
| Engine.StopperStep | lib/arg-parser.js:352-355 | the stopper handler leaves the named values as they are; the tokens it appends to the positional list contain no empty token and are the pending tokens up to the one empty token it consumes, if any |
| Engine.Apply | lib/arg-parser.js:167 | whatever handler a rule holds, a successful call only appends to the positional list and never removes a name |
| Engine.Run | lib/arg-parser.js:162-171 | the token loop never removes a positional token already placed or a name already set |
| Engine.ParseSpec | lib/arg-parser.js:155-178 | a successful parse keeps every name that has a default and sets every required name |
| Engine.FirstDelim | lib/arg-parser.js:318-332 | the index found is the first position from 3 on that holds a delimiter; with none found, no position from 3 on does |
| Engine.Drain | lib/arg-parser.js:354 | the moved tokens are everything before the first empty token, which is consumed; with no empty token, everything is moved |
| Engine.HandlerProgress | lib/arg-parser.js:162-171 | every handler call lowers the measure (the sum of 3 to the length of each pending token) below its value before the token was taken, including the short-option split that pushes two tokens back |
| Engine.RunStep | lib/arg-parser.js:162-167 | one turn of the loop on a claimed token runs its handler and goes on from the state it leaves, or stops with its error |
| Engine.RunUnmatched | lib/arg-parser.js:162-171 | unclaimed tokens are appended to the positional list in the order met, and an empty token ends the loop with everything after it unread |
| Engine.ParsePassThrough | lib/arg-parser.js:155-178 | with no rule claiming any token and no positional names, the result's positional list is the input and its named map is the defaults |
| Engine.ParseUnclaimed | lib/arg-parser.js:155-178 | when no rule claims any token, the positional names are given out from the whole input, starting from the defaults |
| Engine.ParseStopsAtEmpty | lib/arg-parser.js:162 | when no rule claims any token before the first empty token, nothing after that empty token has any effect on the parse |
| Engine.StopperMovesRest | lib/arg-parser.js:349-356 | when no empty token follows the stopper token, every later token is positional, whatever rule would claim it |
| Engine.StopperResumes | lib/arg-parser.js:354 | the stopper moves the tokens before the first empty token after it to the positional list, consumes that empty token, and the loop goes on with what follows |
| Engine.ValueHandlers | lib/arg-parser.js:188-278 | an option fails exactly when no token follows or a rule claims it, with a missing value; a list fails exactly then (missing value) or when the matched name holds a truthy value that is not a list (not a list); otherwise each consumes one token and every alias gets it, or for a list a copy of the matched name's list (empty for a falsy value) with it appended, while other names are kept |
| Engine.FlagAndCount | lib/arg-parser.js:213-247 | a flag sets every alias to true and a counter sets every alias to the matched name's count plus one (one when unset); neither consumes a token |
| Engine.CountOnce | lib/arg-parser.js:238-244 | one counter token adds one to the count in every alias |
| Engine.CountRepeated | lib/arg-parser.js:234-247 | n consecutive tokens of a counter starting from c leave c + n in every alias |
| Engine.AssignedTwice | lib/result.js:33-40 | setting the same names twice keeps only the second value |
| Engine.ListOnce | lib/arg-parser.js:265-274 | one list token and its value append the value, in every alias, to the matched name's list |
| Engine.ListRepeated | lib/arg-parser.js:256-278 | repeated list tokens collect their values in order, after what the matched name held before, in every alias |
| Engine.ShortSingle | lib/arg-parser.js:292 | a two-character short-option token sets itself to true |
| Engine.ShortSplit | lib/arg-parser.js:295-299 | a longer short-option token is put back as its first two characters and the rest, with a dash added to the rest unless the first two characters take a value |
| Engine.ShortBundle | lib/arg-parser.js:284-301 | a bundle `-abc` of letters that take no value sets `-a`, `-b` and `-c` to true and consumes nothing else |
| Engine.AdjoinedValue | lib/arg-parser.js:284-301 | `-xVALUE`, where `-x` is an option, gives the option the adjoined value |
| Engine.LongDelimited | lib/arg-parser.js:318-330 | a delimited long option fails exactly when the name before the delimiter has a literal rule and takes no value; otherwise it sets only that name, to the text after the delimiter |
| Engine.LongUndelimited | lib/arg-parser.js:334-339 | without a delimiter, a long option takes the next token as its value when one follows that no rule claims, and is true otherwise |
| Engine.LongDelimitedRun | lib/arg-parser.js:313-331 | one turn of the loop on an accepted delimited long option sets the name before the delimiter and consumes nothing else |
| Engine.LongAloneRun | lib/arg-parser.js:334-339 | one turn of the loop on an undelimited long option with no value token after it sets the token to true |
| ArgParsers.NamedRulesContent | lib/arg-parser.js:194-202 | the i-th rule a builder call registers is the literal rule for the i-th name, whose handler knows that name and all of the call's names |
| ArgParsers.ArgParser.constructor | lib/arg-parser.js:11-16 | a new parser has no rules, no positional names, no insertion index, no defaults and no names taking a value |
| ArgParsers.ArgParser.AddRule | lib/arg-parser.js:25-28 | the rule is appended after every earlier one and nothing else changes |
| ArgParsers.ArgParser.AddRequired | lib/arg-parser.js:72-75 | the name is appended to the required names and nothing else changes |
| ArgParsers.ArgParser.AddOptional | lib/arg-parser.js:84-89 | the name is appended to the optional names with default false; the insertion index is set to the number of required names at the first call only |
| ArgParsers.ArgParser.SetDefault | lib/arg-parser.js:124-128 | every listed name gets the value as its default; other defaults and declarations are unchanged |
| ArgParsers.ArgParser.GetDefaults | lib/arg-parser.js:134-138 | the copy returned equals the defaults |
| ArgParsers.ArgParser.AddNamed | lib/arg-parser.js:194-202 | one literal rule per name is appended in order, each handler knowing its name and all aliases; the names get the call's default and, for option and list, are recorded as taking a value |
| ArgParsers.ArgParser.AddOne | lib/arg-parser.js:195-201 | one name's rule, default and value marker are added |
| ArgParsers.ArgParser.AddOption | lib/arg-parser.js:188-204 | `option` registers option rules for all names, records them as taking a value and gives them default false |
| ArgParsers.ArgParser.AddFlag | lib/arg-parser.js:213-225 | `flag` registers flag rules for all names with default false |
| ArgParsers.ArgParser.AddCount | lib/arg-parser.js:234-247 | `count` registers counter rules for all names with default 0 |
| ArgParsers.ArgParser.AddList | lib/arg-parser.js:256-278 | `list` registers list rules for all names, records them as taking a value and gives them the empty list |
| ArgParsers.ArgParser.EnableShortOpts | lib/arg-parser.js:284-288 | appends the rule for `/^-[^-]+/` with the short-option handler |
| ArgParsers.ArgParser.EnableLongOpts | lib/arg-parser.js:308-313 | appends the rule for `/^--.+/` with the given delimiters, "=" when none is given |
| ArgParsers.ArgParser.AddStopper | lib/arg-parser.js:349-352 | appends a literal stopper rule for the given token, or for "--" when it is missing or empty |
| ArgParsers.ArgParser.HandleOption | lib/arg-parser.js:197-201 | the option handler fails or updates the result and the pending tokens exactly as the option step does |
| ArgParsers.ArgParser.HandleFlag | lib/arg-parser.js:219-221 | the flag handler updates the result as the flag step does |
| ArgParsers.ArgParser.HandleCount | lib/arg-parser.js:240-243 | the counter handler updates the result as the counter step does |
| ArgParsers.ArgParser.HandleList | lib/arg-parser.js:265-274 | the list handler fails or updates the result and the pending tokens exactly as the list step does |
| ArgParsers.ArgParser.HandleShortOpts | lib/arg-parser.js:288-300 | the short-option handler sets a two-character token or pushes the two split tokens back, as the short-option step does |
| ArgParsers.ArgParser.HandleLongOpts | lib/arg-parser.js:313-340 | the scan from index 3 stops at the first delimiter, and the handler fails or updates the result as the long-option step does |
| ArgParsers.ArgParser.HandleStopper | lib/arg-parser.js:352-355 | the shifting loop moves the tokens before the first empty token to the positional list and consumes the empty token |
| ArgParsers.ArgParser.Dispatch | lib/arg-parser.js:167 | calling the matched rule's handler has the effect of that handler's step |
| ArgParsers.ArgParser.ApplyPositional | lib/arg-parser.js:96-114 | the two `forEach` loops fail exactly when the redistribution function does, with the same error, and otherwise leave its positional tokens and named map |
| ArgParsers.ArgParser.Parse | lib/arg-parser.js:155-178 | the caller's tokens are unchanged; the parse fails exactly when the specification does, with its error, and otherwise returns its positional tokens and named map |
| Scenarios.PassThrough | test/test-squabble.js:23-31 | `["hey", "ya"]` with no declarations stays positional |
| Scenarios.RequiredTakesFirst | test/test-squabble.js:51-59 | `required("FOO")` takes "foo" and leaves ["bar"]; no tokens fails naming FOO |
| Scenarios.OptionalTakesFirst | test/test-squabble.js:63-72 | `optional("FOO")` takes "foo" and leaves ["bar"]; without tokens FOO is false |
| Scenarios.OptionalPosition | test/test-squabble.js:74-88 | FOO=a, BAR=b, BANG=c, BAZ=d and BIFF=false, with nothing left positional |
| Scenarios.OptionValue | test/test-squabble.js:92-105 | `option("FOO")` takes "bar", is false when absent and fails without a value |
| Scenarios.EmptyTokenAsValue | lib/arg-parser.js:197-201 | with `option("FOO")`, the tokens `FOO`, an empty token and `x` set FOO to the empty string and leave ["x"] positional: the loop does not stop at an empty token a handler takes |
| Scenarios.FlagValue | test/test-squabble.js:109-117 | `flag("FOO")` is true when present and false otherwise |
| Scenarios.CountValue | test/test-squabble.js:121-128 | `count("FOO")` counts 1 and 2 |
| Scenarios.ListValue | test/test-squabble.js:132-146 | `list("FOO")` collects ["bar", "baz"] and fails without a value |
| Scenarios.ShortBundleSetsEach | test/test-squabble.js:150-158 | `-opt` sets `-o`, `-p` and `-t` and leaves nothing positional |
| Scenarios.ShortNotAValue | test/test-squabble.js:160-165 | `-o -p` with `option("-o")` fails: a short option is not a value |
| Scenarios.ShortAdjoined | test/test-squabble.js:167-173 | `-ofFOO` with `option("-f")` sets `-o` to true and `-f` to "FOO", for any such letters and value |
| Scenarios.LongFlag | test/test-squabble.js:177-182 | `--foo` alone is true |
| Scenarios.LongNotAValue | test/test-squabble.js:184-189 | `--opt --foo` with `option("--opt")` fails: a long option is not a value |
| Scenarios.LongDelimitedValue | test/test-squabble.js:191-197 | `--foo=bar` sets `--foo` to "bar" and `--bar:baz` is true |
| Scenarios.LongCustomDelimiters | test/test-squabble.js:200-209 | with delimiters `>:`, `--baz` is "bang", `--biff` is "bong" and `--foo=bar` is true |
| Scenarios.StopperEndsOptions | test/test-squabble.js:214-231 | for any stopper token, `-a <stop> -b` sets `-a` and leaves ["-b"] positional |
| Scenarios.DefaultValue | test/test-squabble.js:236-243 | `default("foo", "bar", "baz")` gives both names "baz" |
| Scenarios.DefaultThroughParser | test/test-squabble.js:236-243 | the builder call and `Parse` of an empty array give both names "baz" |
| Scenarios.StopperThroughParser | test/test-squabble.js:214-221 | `shortOpts().stopper()` built on a parser object and parsing `-a -- -b` leaves ["-b"] and `-a` true |
| Scenarios.BuiltRequired | test/test-squabble.js:52 | `required("FOO")` on a new parser records exactly the declarations the required-name scenario parses with |
| Scenarios.BuiltOptional | test/test-squabble.js:64 | `optional("FOO")` on a new parser records the optional name, its default false and insertion index 0 |
| Scenarios.BuiltPositions | test/test-squabble.js:75-80 | the five positional calls record FOO and BAZ as required, BAR, BANG and BIFF as optional with default false, and insertion index 1 |
| Scenarios.BuiltOption | test/test-squabble.js:93 | `option("FOO")` on a new parser records one option rule, the name as taking a value and default false |
| Scenarios.BuiltFlag | test/test-squabble.js:110 | `flag("FOO")` on a new parser records one flag rule and default false |
| Scenarios.BuiltCount | test/test-squabble.js:122 | `count("FOO")` on a new parser records one counter rule and default 0 |
| Scenarios.BuiltList | test/test-squabble.js:133 | `list("FOO")` on a new parser records one list rule, the name as taking a value and the empty list |
| Scenarios.BuiltShort | test/test-squabble.js:151 | `shortOpts()` on a new parser records the short-option rule only |
| Scenarios.BuiltShortWith | test/test-squabble.js:161-168 | `shortOpts().option("-f")` records the short-option rule before the option rule for `-f`, for any letter f |
| Scenarios.BuiltLong | test/test-squabble.js:178-201 | `longOpts()` records the long-option rule with "=", and `longOpts(delims)` with the given delimiters |
| Scenarios.BuiltLongWithOpt | test/test-squabble.js:185 | `longOpts().option("--opt")` records the long-option rule before the option rule for `--opt` |
| Scenarios.BuiltShortStopper | test/test-squabble.js:215-225 | `shortOpts().stopper(stop)` records a stopper rule for the token, or for "--" when it is missing or empty |

## Left out

- The fallback to `process.argv.slice(2)` when no tokens are given (`lib/arg-parser.js:156`) is environment input. `Parse` always takes an explicit array of tokens.
- `propertize` read-only properties (`lib/result.js:17,20`, `lib/arg-parser.js:192,260`) belong to a foreign library. `needsArg` is a plain sequence field that starts empty, rather than a property created on first use.
- ArgParsers.ArgParser.AddRule: accepts only the built-in handler kinds and the two built-in regular expressions, not arbitrary functions and expressions. It also refuses a short-option handler under a literal matcher shorter than two characters: in the source that combination pushes back a token as long as the one it took, and the loop never ends.
- Result's `Array` subclassing and its `parser` back-reference (`lib/result.js:16-25`) are not modelled. The result is a sequence plus a map.
- The texts of error messages are left out. Each error is a variant that carries the offending name.
- Strings are sequences of Dafny characters, not UTF-16 code units. Lengths and the index-3 scan in `longOpts` agree with the source only when no token holds a character outside the Basic Multilingual Plane.
- Default values are limited to the four value kinds: booleans, strings, integers and lists of strings. Two names sharing one array as their default is not modelled, because values are immutable here. The list handler copies before appending, so the source never mutates a shared default either.
- Engine.ParseStopsAtEmpty: stated only for inputs in which no rule claims a token before the first empty token. When a handler takes that empty token as a value, or the stopper consumes it, the loop goes on; Scenarios.EmptyTokenAsValue and Engine.StopperResumes state what happens then.
- Counts are unbounded integers. JavaScript numbers are doubles, so a count above 2^53 would lose precision in the source; that is not modelled.
- The module export and the `createParser` alias (`test/test-squabble.js:5-19`) are not modelled.

/** `parseFlags` and the assignment of positional arguments in `RunCLI`. */
module CliFlags {
  import opened Wrappers
  import opened Decimal
  import opened Strings

  datatype ParamType = String | Int | Bool | Float | Array | Object

  datatype Param = Param(name: string, short: Option<char>, kind: ParamType, variadic: bool)
  {
    /** Values given to the parameter pile up in a list. */
    predicate Collects() {
      kind == Array || (variadic && kind != Bool)
    }
  }

  datatype Value = Text(s: string) | Number(n: int) | Switch(on: bool) | Fraction(f: real) | List(items: seq<string>)

  type Values = map<string, Value>

  datatype ParseError = RequiresValue(shown: string) |
                        InvalidInteger(shown: string, value: string) | InvalidNumber(shown: string, value: string)

  // ---------- one argument ----------

  datatype Token = Word | Flag(param: Param, key: string, value: Option<string>)

  /** The parameter a name stands for: with a name given twice, the later one. */
  function ByName(params: seq<Param>, name: string): (r: Option<Param>)
    ensures r.Some? ==> r.value.name == name
  {
    if params == [] then None
    else if params[|params| - 1].name == name then Some(params[|params| - 1])
    else ByName(params[..|params| - 1], name)
  }

  function ByShort(params: seq<Param>, c: char): Option<Param> {
    if params == [] then None
    else if params[|params| - 1].short == Some(c) then Some(params[|params| - 1])
    else ByShort(params[..|params| - 1], c)
  }

  function Classify(arg: string, params: seq<Param>): Token {
    if |arg| >= 2 && arg[0] == '-' then
      var long := arg[1] == '-';
      var body := if long then arg[2..] else arg[1..];
      var i := IndexOf(body, '=');
      var name := if i >= 0 then body[..i] else body;
      var value := if i >= 0 then Some(body[i + 1..]) else None;
      var p := if !long && |name| == 1 then ByShort(params, name[0]) else ByName(params, name);
      if p.Some? then Flag(p.value, p.value.name, value) else Word
    else Word
  }

  function FlagLabel(arg: string, key: string): string {
    if |arg| >= 2 && arg[0] == '-' && arg[1] == '-' then "--" + key
    else (if IndexOf(arg, '=') >= 0 then arg[..IndexOf(arg, '=')] else arg) + " (--" + key + ")"
  }

  // ---------- values ----------

  function Prior(vals: Values, key: string): seq<string> {
    if key in vals && vals[key].List? then vals[key].items else []
  }

  /** Stores the text `value` for the flag `key` of a parameter that is not a switch. */
  function Store(p: Param, key: string, value: string, shown: string, vals: Values,
                 parseFloat: string -> Option<real>): Result<Values, ParseError>
  {
    if p.Collects() then Ok(vals[key := List(Prior(vals, key) + [value])])
    else
      match p.kind
      case Int =>
        var n := Atoi(value);
        if n.None? then Err(InvalidInteger(shown, value)) else Ok(vals[key := Number(n.value)])
      case Float =>
        var f := parseFloat(value);
        if f.None? then Err(InvalidNumber(shown, value)) else Ok(vals[key := Fraction(f.value)])
      case _ => Ok(vals[key := Text(value)])
  }

  datatype Parsed = Parsed(remaining: seq<string>, vals: Values)

  function Prepend(words: seq<string>, r: Result<Parsed, ParseError>): Result<Parsed, ParseError> {
    match r
    case Err(e) => Err(e)
    case Ok(parsed) => Ok(parsed.(remaining := words + parsed.remaining))
  }

  /** The flags and remaining words of `args`. */
  function Parse(args: seq<string>, params: seq<Param>, vals: Values,
                   parseFloat: string -> Option<real>): Result<Parsed, ParseError>
    decreases |args|
  {
    if args == [] then Ok(Parsed([], vals))
    else
      match Classify(args[0], params)
      case Word => Prepend([args[0]], Parse(args[1..], params, vals, parseFloat))
      case Flag(p, key, value) =>
        var shown := FlagLabel(args[0], key);
        if p.kind == Bool then Parse(args[1..], params, vals[key := Switch(value != Some("false"))], parseFloat)
        else if value.None? && |args| == 1 then Err(RequiresValue(shown))
        else
          var text := if value.Some? then value.value else args[1];
          var rest := if value.Some? then args[1..] else args[2..];
          match Store(p, key, text, shown, vals, parseFloat)
          case Err(e) => Err(e)
          case Ok(vals') => Parse(rest, params, vals', parseFloat)
  }

  method ParseFlags(args: seq<string>, params: seq<Param>, given: Values, parseFloat: string -> Option<real>)
    returns (r: Result<Parsed, ParseError>)
    ensures r == Parse(args, params, given, parseFloat)
  {
    hide Classify, Store, FlagLabel;
    var vals := given;
    var remaining: seq<string> := [];
    var i := 0;
    assert args[0..] == args;
    PrependNothing(Parse(args, params, given, parseFloat));
    while i < |args|
      invariant i <= |args|
      invariant Prepend(remaining, Parse(args[i..], params, vals, parseFloat)) == Parse(args, params, given, parseFloat)
      decreases |args| - i
    {
      var arg := args[i];
      assert args[i..][0] == arg && args[i..][1..] == args[i + 1..];
      match Classify(arg, params) {
        case Word =>
          PrependTwice(remaining, [arg], Parse(args[i + 1..], params, vals, parseFloat));
          remaining := remaining + [arg];
        case Flag(p, key, value) =>
          var shown := FlagLabel(arg, key);
          if p.kind == Bool {
            vals := vals[key := Switch(value != Some("false"))];
          } else {
            var text: string;
            if value.Some? {
              text := value.value;
            } else {
              i := i + 1;
              if i >= |args| {
                return Err(RequiresValue(shown));
              }
              text := args[i];
              assert args[i - 1..][1] == text && args[i - 1..][2..] == args[i + 1..];
            }
            var stored := Store(p, key, text, shown, vals, parseFloat);
            if stored.Err? {
              return Err(stored.error);
            }
            vals := stored.value;
          }
      }
      i := i + 1;
    }
    assert args[i..] == [] && remaining + [] == remaining;
    return Ok(Parsed(remaining, vals));
  }

  lemma PrependNothing(r: Result<Parsed, ParseError>)
    ensures Prepend([], r) == r
  {
    if r.Ok? { assert [] + r.value.remaining == r.value.remaining; }
  }

  lemma PrependTwice(a: seq<string>, b: seq<string>, r: Result<Parsed, ParseError>)
    ensures Prepend(a, Prepend(b, r)) == Prepend(a + b, r)
  {
    if r.Ok? { assert a + (b + r.value.remaining) == (a + b) + r.value.remaining; }
  }

  // ---------- no argument is lost ----------

  datatype Use = Kept | AsFlag | AsValue

  /** The argument `arg` is a flag that takes the argument after it. */
  predicate TakesNext(arg: string, params: seq<Param>) {
    var t := Classify(arg, params);
    t.Flag? && t.param.kind != Bool && t.value == None
  }

  /** The argument at `i` is a flag, the value of the flag before it, or kept. */
  ghost predicate Accounted(args: seq<string>, params: seq<Param>, uses: seq<Use>, i: nat)
    requires i < |args| == |uses|
  {
    && (uses[i] == AsValue <==> i > 0 && uses[i - 1] == AsFlag && TakesNext(args[i - 1], params))
    && (uses[i] == AsFlag ==> Classify(args[i], params).Flag?)
    && (uses[i] == Kept ==> Classify(args[i], params) == Word)
    && (uses[i] == AsFlag && TakesNext(args[i], params) ==> i + 1 < |args|)
  }

  ghost predicate Accounts(args: seq<string>, params: seq<Param>, uses: seq<Use>) {
    |uses| == |args| && forall i :: 0 <= i < |args| ==> Accounted(args, params, uses, i)
  }

  function Select(args: seq<string>, uses: seq<Use>): seq<string>
    requires |uses| == |args|
  {
    if args == [] then []
    else if uses[0] == Kept then [args[0]] + Select(args[1..], uses[1..])
    else Select(args[1..], uses[1..])
  }

  /** When parsing succeeds every argument is accounted for, and the kept ones remain in order. */
  lemma {:induction false} Conserves(args: seq<string>, params: seq<Param>, vals: Values,
                                     parseFloat: string -> Option<real>)
    returns (uses: seq<Use>)
    requires Parse(args, params, vals, parseFloat).Ok?
    ensures Accounts(args, params, uses)
    ensures Parse(args, params, vals, parseFloat).value.remaining == Select(args, uses)
    ensures uses != [] ==> uses[0] != AsValue
    decreases |args|
  {
    hide Classify, Store, FlagLabel;
    uses := [];
    if args != [] {
      match Classify(args[0], params)
      case Word =>
        var more := Conserves(args[1..], params, vals, parseFloat);
        uses := [Kept] + more;
        AccountsOne(args, params, Kept, more);
      case Flag(p, key, value) =>
        var shown := FlagLabel(args[0], key);
        if p.kind == Bool {
          var more := Conserves(args[1..], params, vals[key := Switch(value != Some("false"))], parseFloat);
          uses := [AsFlag] + more;
          AccountsOne(args, params, AsFlag, more);
        } else if value.Some? {
          var more := Conserves(args[1..], params,
                                Store(p, key, value.value, shown, vals, parseFloat).value, parseFloat);
          uses := [AsFlag] + more;
          AccountsOne(args, params, AsFlag, more);
        } else {
          var more := Conserves(args[2..], params, Store(p, key, args[1], shown, vals, parseFloat).value, parseFloat);
          uses := [AsFlag, AsValue] + more;
          AccountsTwo(args, params, more);
        }
    }
  }

  lemma AccountsOne(args: seq<string>, params: seq<Param>, use: Use, more: seq<Use>)
    requires args != [] && Accounts(args[1..], params, more) && (more != [] ==> more[0] != AsValue)
    requires if use == Kept then Classify(args[0], params) == Word
             else use == AsFlag && Classify(args[0], params).Flag? && !TakesNext(args[0], params)
    ensures Accounts(args, params, [use] + more)
    ensures Select(args, [use] + more) == (if use == Kept then [args[0]] else []) + Select(args[1..], more)
  {
    hide Classify, TakesNext;
    var uses := [use] + more;
    assert uses[1..] == more;
    forall i | 0 <= i < |args|
      ensures Accounted(args, params, uses, i)
    {
      if i > 0 { assert Accounted(args[1..], params, more, i - 1); }
    }
  }

  lemma AccountsTwo(args: seq<string>, params: seq<Param>, more: seq<Use>)
    requires |args| >= 2 && Accounts(args[2..], params, more) && (more != [] ==> more[0] != AsValue)
    requires Classify(args[0], params).Flag? && TakesNext(args[0], params)
    ensures Accounts(args, params, [AsFlag, AsValue] + more)
    ensures Select(args, [AsFlag, AsValue] + more) == Select(args[2..], more)
  {
    hide Classify, TakesNext;
    var uses := [AsFlag, AsValue] + more;
    assert uses[1..] == [AsValue] + more && uses[1..][1..] == more && args[1..][1..] == args[2..];
    forall i | 0 <= i < |args|
      ensures Accounted(args, params, uses, i)
    {
      if i > 1 { assert Accounted(args[2..], params, more, i - 2); }
    }
  }

  // ---------- parsing inverts rendering ----------

  // One argument of a rendered command line: a positional word, or a parameter set to a value.
  // For a parameter that collects, the value is one element.
  datatype Item = Positional(word: string) | Setting(param: Param, value: Value)

  /** The value has the type of the parameter. */
  predicate Typed(p: Param, v: Value, parseFloat: string -> Option<real>, printFloat: real -> string) {
    if p.Collects() then v.Text?
    else
      match p.kind
      case Int => v.Number? && MIN_INT <= v.n <= MAX_INT
      case Bool => v.Switch?
      case Float => v.Fraction? && parseFloat(printFloat(v.f)) == Some(v.f)
      case _ => v.Text?
  }

  predicate Proper(item: Item, params: seq<Param>, parseFloat: string -> Option<real>, printFloat: real -> string) {
    match item
    case Positional(word) => Classify(word, params) == Word
    case Setting(p, v) => ByName(params, p.name) == Some(p) && '=' !in p.name && Typed(p, v, parseFloat, printFloat)
  }

  function Show(v: Value, printFloat: real -> string): string {
    match v
    case Text(s) => s
    case Number(n) => OfInt(n)
    case Switch(on) => if on then "true" else "false"
    case Fraction(f) => printFloat(f)
    case List(_) => ""
  }

  function Render(item: Item, printFloat: real -> string): string {
    match item
    case Positional(word) => word
    case Setting(p, v) => "--" + p.name + "=" + Show(v, printFloat)
  }

  function RenderAll(items: seq<Item>, printFloat: real -> string): (args: seq<string>)
    ensures |args| == |items|
  {
    if items == [] then [] else [Render(items[0], printFloat)] + RenderAll(items[1..], printFloat)
  }

  function Words(items: seq<Item>): seq<string> {
    if items == [] then [] else (if items[0].Positional? then [items[0].word] else []) + Words(items[1..])
  }

  function SettleOne(item: Item, vals: Values): Values {
    match item
    case Positional(_) => vals
    case Setting(p, v) =>
      if p.Collects() && v.Text? then vals[p.name := List(Prior(vals, p.name) + [v.s])] else vals[p.name := v]
  }

  /** What setting after setting makes of the values. */
  function Settle(items: seq<Item>, vals: Values): Values {
    if items == [] then vals else Settle(items[1..], SettleOne(items[0], vals))
  }

  lemma ClassifySetting(p: Param, v: Value, params: seq<Param>, printFloat: real -> string)
    requires ByName(params, p.name) == Some(p) && '=' !in p.name
    ensures Classify(Render(Setting(p, v), printFloat), params) == Flag(p, p.name, Some(Show(v, printFloat)))
  {
    hide Show, ByName, IndexOf;
    var text := Show(v, printFloat);
    var body := p.name + "=" + text;
    var arg := Render(Setting(p, v), printFloat);
    assert arg[2..] == body;
    IndexOfSeparator(p.name, '=', text);
  }

  lemma StoreShown(p: Param, v: Value, shown: string, vals: Values,
                     parseFloat: string -> Option<real>, printFloat: real -> string)
    requires Typed(p, v, parseFloat, printFloat) && p.kind != Bool
    ensures Store(p, p.name, Show(v, printFloat), shown, vals, parseFloat) == Ok(SettleOne(Setting(p, v), vals))
  {
    if !p.Collects() && p.kind == Int { AtoiOfInt(v.n); }
  }

  /** Parsing a rendered command line gives back its words, in order, and every value set. */
  lemma {:induction false} ParseRendered(items: seq<Item>, params: seq<Param>, vals: Values,
                                         parseFloat: string -> Option<real>, printFloat: real -> string)
    requires forall i :: 0 <= i < |items| ==> Proper(items[i], params, parseFloat, printFloat)
    ensures Parse(RenderAll(items, printFloat), params, vals, parseFloat) ==
            Ok(Parsed(Words(items), Settle(items, vals)))
  {
    hide Classify, Store, Show, FlagLabel, Render, ByName;
    if items != [] {
      var args := RenderAll(items, printFloat);
      assert args[0] == Render(items[0], printFloat) && args[1..] == RenderAll(items[1..], printFloat);
      assert Proper(items[0], params, parseFloat, printFloat);
      match items[0]
      case Positional(word) =>
        RenderWord(word, printFloat);
        ParseRendered(items[1..], params, vals, parseFloat, printFloat);
      case Setting(p, v) =>
        ClassifySetting(p, v, params, printFloat);
        var vals' := SettleOne(items[0], vals);
        if p.kind == Bool {
          ShowSwitch(v.on, printFloat);
        } else {
          StoreShown(p, v, FlagLabel(args[0], p.name), vals, parseFloat, printFloat);
        }
        ParseRendered(items[1..], params, vals', parseFloat, printFloat);
        assert [] + Words(items[1..]) == Words(items[1..]);
    }
  }

  lemma RenderWord(word: string, printFloat: real -> string)
    ensures Render(Positional(word), printFloat) == word
  {
  }

  lemma ShowSwitch(on: bool, printFloat: real -> string)
    ensures (Show(Switch(on), printFloat) != "false") == on
  {
  }

  function TextOf(item: Item, name: string): seq<string> {
    if item.Setting? && item.param.name == name && item.value.Text? then [item.value.s] else []
  }

  /** The texts set for `name`, in order. */
  function Texts(items: seq<Item>, name: string): seq<string> {
    if items == [] then [] else TextOf(items[0], name) + Texts(items[1..], name)
  }

  lemma SettleOneCollects(item: Item, p: Param, vals: Values)
    requires p.Collects()
    requires item.Setting? && item.param.name == p.name ==> item.param == p && item.value.Text?
    ensures var out := SettleOne(item, vals);
            && Prior(out, p.name) == Prior(vals, p.name) + TextOf(item, p.name)
            && (p.name in out <==> p.name in vals || TextOf(item, p.name) != [])
  {
  }

  /** A parameter that collects ends with all its texts in order, behind what it had before. */
  lemma {:induction false} CollectsAll(items: seq<Item>, p: Param, vals: Values)
    requires p.Collects()
    requires forall i :: 0 <= i < |items| && items[i].Setting? && items[i].param.name == p.name ==>
               items[i].param == p && items[i].value.Text?
    ensures Prior(Settle(items, vals), p.name) == Prior(vals, p.name) + Texts(items, p.name)
    ensures p.name in Settle(items, vals) <==> p.name in vals || Texts(items, p.name) != []
  {
    hide SettleOne, Prior, TextOf;
    if items != [] {
      var first, rest := items[0], items[1..];
      assert forall i :: 0 <= i < |rest| ==> rest[i] == items[i + 1];
      SettleOneCollects(first, p, vals);
      CollectsAll(rest, p, SettleOne(first, vals));
    }
  }

  /** Any other parameter ends with the value it was set to last; one never set keeps what it had. */
  lemma {:induction false} KeepsLast(items: seq<Item>, name: string, vals: Values, last: nat)
    requires last < |items| ==> items[last].Setting? && items[last].param.name == name && !items[last].param.Collects()
    requires forall i :: last < i < |items| || (0 <= i < |items| <= last) ==>
               items[i].Positional? || items[i].param.name != name
    ensures if last < |items| then name in Settle(items, vals) && Settle(items, vals)[name] == items[last].value
            else (name in Settle(items, vals) <==> name in vals) &&
                         (name in vals ==> Settle(items, vals)[name] == vals[name])
  {
    if items != [] {
      var first := items[0];
      var vals' := SettleOne(first, vals);
      assert forall i :: 0 <= i < |items[1..]| ==> items[1..][i] == items[i + 1];
      KeepsLast(items[1..], name, vals', if 0 < last < |items| then last - 1 else |items|);
    }
  }

  // ---------- the forms of a flag ----------

  lemma ClassifyWithValue(flag: string, text: string, params: seq<Param>)
    requires '=' !in flag && Classify(flag, params).Flag?
    ensures Classify(flag, params).value == None
    ensures var t := Classify(flag, params);
            && Classify(flag + "=" + text, params) == Flag(t.param, t.key, Some(text))
            && FlagLabel(flag + "=" + text, t.key) == FlagLabel(flag, t.key)
  {
    hide ByName, ByShort, IndexOf;
    var arg := flag + "=" + text;
    var n := if flag[1] == '-' then 2 else 1;
    var body := flag[n..];
    assert arg[n..] == body + "=" + text;
    IndexOfSeparator(body, '=', text);
    IndexOfSeparator(flag, '=', text);
  }

  /** A flag followed by its value means the same as the flag, '=' and the value, errors included. */
  lemma SpacedForm(flag: string, text: string, rest: seq<string>, params: seq<Param>, vals: Values,
                   parseFloat: string -> Option<real>)
    requires '=' !in flag && Classify(flag, params).Flag? && Classify(flag, params).param.kind != Bool
    ensures Parse([flag, text] + rest, params, vals, parseFloat) ==
            Parse([flag + "=" + text] + rest, params, vals, parseFloat)
  {
    hide Classify, FlagLabel, Store;
    ClassifyWithValue(flag, text, params);
    var spaced, joined := [flag, text] + rest, [flag + "=" + text] + rest;
    assert spaced[2..] == rest && joined[1..] == rest;
  }

  /** What a flag makes of the arguments behind it. */
  function AfterFlag(t: Token, shown: string, rest: seq<string>, params: seq<Param>, vals: Values,
                     parseFloat: string -> Option<real>): Result<Parsed, ParseError>
    requires t.Flag?
  {
    if t.param.kind == Bool then Parse(rest, params, vals[t.key := Switch(t.value != Some("false"))], parseFloat)
    else if t.value.None? && rest == [] then Err(RequiresValue(shown))
    else
      var text := if t.value.Some? then t.value.value else rest[0];
      match Store(t.param, t.key, text, shown, vals, parseFloat)
      case Err(e) => Err(e)
      case Ok(vals') => Parse(if t.value.Some? then rest else rest[1..], params, vals', parseFloat)
  }

  lemma ParseFlagged(arg: string, rest: seq<string>, params: seq<Param>, vals: Values,
                     parseFloat: string -> Option<real>)
    requires Classify(arg, params).Flag?
    ensures var t := Classify(arg, params);
            Parse([arg] + rest, params, vals, parseFloat)
            == AfterFlag(t, FlagLabel(arg, t.key), rest, params, vals, parseFloat)
  {
    hide Classify, FlagLabel, Store;
    var args := [arg] + rest;
    assert args[0] == arg && args[1..] == rest;
    if rest != [] { assert args[1] == rest[0] && args[2..] == rest[1..]; }
  }

  /** A switch without a value is on, like one with any value but "false". */
  lemma SwitchForms(flag: string, text: string, rest: seq<string>, params: seq<Param>, vals: Values,
                    parseFloat: string -> Option<real>)
    requires '=' !in flag && Classify(flag, params).Flag? && Classify(flag, params).param.kind == Bool
    ensures var name := Classify(flag, params).param.name;
            var (on, off) := (vals[name := Switch(true)], vals[name := Switch(false)]);
            && Parse([flag] + rest, params, vals, parseFloat) == Parse(rest, params, on, parseFloat)
            && Parse([flag + "=" + text] + rest, params, vals, parseFloat)
               == Parse(rest, params, if text == "false" then off else on, parseFloat)
  {
    ClassifyWithValue(flag, text, params);
    KeyIsName(flag, params);
    ParseFlagged(flag, rest, params, vals, parseFloat);
    ParseFlagged(flag + "=" + text, rest, params, vals, parseFloat);
    hide Classify, FlagLabel, Store, Parse;
  }

  lemma KeyIsName(flag: string, params: seq<Param>)
    ensures Classify(flag, params).Flag? ==> Classify(flag, params).key == Classify(flag, params).param.name
  {
  }

  /** The three spellings of a parameter stand for it; a single dash before one character is its short form. */
  lemma Spellings(p: Param, params: seq<Param>)
    requires '=' !in p.name
    ensures ByName(params, p.name) == Some(p) ==> Classify("--" + p.name, params) == Flag(p, p.name, None)
    ensures ByName(params, p.name) == Some(p) && |p.name| >= 2 && p.name[0] != '-' ==>
              Classify("-" + p.name, params) == Flag(p, p.name, None)
    ensures p.short.Some? && ByShort(params, p.short.value) == Some(p) &&
            p.short.value != '-' && p.short.value != '=' ==>
              Classify("-" + [p.short.value], params) == Flag(p, p.name, None)
  {
    hide ByName, ByShort, IndexOf;
    assert ("--" + p.name)[2..] == p.name && ("-" + p.name)[1..] == p.name;
    IndexOfSeparator(p.name, '=', "");
    if p.short.Some? {
      var c := [p.short.value];
      assert ("-" + c)[1..] == c;
      if p.short.value != '=' { IndexOfSeparator(c, '=', ""); }
    }
  }

  /** And nothing else is a flag: an argument that is taken for one spells a declared parameter. */
  lemma FlagsAreSpelled(arg: string, params: seq<Param>)
    requires Classify(arg, params).Flag?
    ensures var t := Classify(arg, params);
            && t.param in params
            && (arg == "--" + t.param.name + Suffix(t.value) || arg == "-" + t.param.name + Suffix(t.value)
                || (t.param.short.Some? && arg == "-" + [t.param.short.value] + Suffix(t.value)))
  {
    var t := Classify(arg, params);
    var n, name := ArgumentParts(arg, params);
    Dashes(arg);
    DeclaredFound(params, name, if |name| > 0 then name[0] else '-');
    hide ByName, ByShort, Classify, Suffix;
    if t.param.name != name { assert name == [t.param.short.value]; }
  }

  /** Where `Classify` cuts a flag, and what it looks up. */
  lemma ClassifyCuts(arg: string, params: seq<Param>) returns (n: nat, body: string, i: int, name: string)
    requires Classify(arg, params).Flag?
    ensures |arg| >= 2 && arg[0] == '-' && n == (if arg[1] == '-' then 2 else 1) && body == arg[n..]
    ensures i == IndexOf(body, '=') && name == (if i >= 0 then body[..i] else body)
    ensures var t := Classify(arg, params);
            && t.value == (if i >= 0 then Some(body[i + 1..]) else None)
            && if n == 1 && |name| == 1 then ByShort(params, name[0]) == Some(t.param)
               else ByName(params, name) == Some(t.param)
  {
    hide ByName, ByShort, IndexOf;
    n := if arg[1] == '-' then 2 else 1;
    body := arg[n..];
    i := IndexOf(body, '=');
    name := if i >= 0 then body[..i] else body;
  }

  function Suffix(value: Option<string>): string {
    if value.Some? then "=" + value.value else ""
  }

  /** The name behind the dashes, and what follows it. */
  lemma ArgumentParts(arg: string, params: seq<Param>) returns (n: nat, name: string)
    requires Classify(arg, params).Flag?
    ensures |arg| >= 2 && arg[0] == '-' && n == if arg[1] == '-' then 2 else 1
    ensures var t := Classify(arg, params);
            && arg == arg[..n] + name + Suffix(t.value)
            && if n == 1 && |name| == 1 then ByShort(params, name[0]) == Some(t.param)
               else ByName(params, name) == Some(t.param)
  {
    hide *;
    var body, i;
    n, body, i, name := ClassifyCuts(arg, params);
    BodyParts(body, i, name, Classify(arg, params).value);
    HeadAndBody(arg, n, name, Suffix(Classify(arg, params).value));
  }

  lemma BodyParts(body: string, i: int, name: string, value: Option<string>)
    requires i == IndexOf(body, '=') && name == (if i >= 0 then body[..i] else body)
    requires value == if i >= 0 then Some(body[i + 1..]) else None
    ensures body == name + Suffix(value)
  {
    hide IndexOf;
  }

  lemma HeadAndBody(arg: string, n: nat, name: string, suffix: string)
    requires n <= |arg| && arg[n..] == name + suffix
    ensures arg == arg[..n] + name + suffix
  {
    assert arg == arg[..n] + arg[n..];
  }

  lemma Dashes(arg: string)
    requires |arg| >= 2 && arg[0] == '-'
    ensures arg[..1] == "-" && (arg[1] == '-' ==> arg[..2] == "--")
  {
  }

  lemma {:induction false} DeclaredFound(params: seq<Param>, name: string, c: char)
    ensures ByName(params, name).Some? ==> ByName(params, name).value in params
    ensures ByShort(params, c).Some? ==> ByShort(params, c).value in params && ByShort(params, c).value.short == Some(c)
    decreases |params|
  {
    if params != [] { DeclaredFound(params[..|params| - 1], name, c); }
  }

  /** Of parameters declared with one name or one short form, the last counts. */
  lemma {:induction false} LastDeclared(params: seq<Param>, name: string, c: char)
    ensures match ByName(params, name)
            case None => forall i :: 0 <= i < |params| ==> params[i].name != name
            case Some(p) =>
              exists i :: 0 <= i < |params| && params[i] == p && p.name == name
                && forall j :: i < j < |params| ==> params[j].name != name
    ensures match ByShort(params, c)
            case None => forall i :: 0 <= i < |params| ==> params[i].short != Some(c)
            case Some(p) =>
              exists i :: 0 <= i < |params| && params[i] == p && p.short == Some(c)
                && forall j :: i < j < |params| ==> params[j].short != Some(c)
    decreases |params|
  {
    if params != [] {
      var n := |params| - 1;
      assert params[n] == params[|params| - 1];
      LastDeclared(params[..n], name, c);
    }
  }

  ghost predicate Alike(a: Result<Parsed, ParseError>, b: Result<Parsed, ParseError>) {
    a == b || (a.Err? && b.Err?)
  }

  lemma LabelIrrelevant(t: Token, shown: string, shown': string, rest: seq<string>, params: seq<Param>, vals: Values,
                        parseFloat: string -> Option<real>)
    requires t.Flag?
    ensures Alike(AfterFlag(t, shown, rest, params, vals, parseFloat),
                  AfterFlag(t, shown', rest, params, vals, parseFloat))
  {
    hide Parse;
  }

  /** Whichever way a parameter is spelled, with a value or without, it parses the same. */
  lemma SpellingIrrelevant(flag: string, flag': string, value: Option<string>, rest: seq<string>, params: seq<Param>,
                           vals: Values, parseFloat: string -> Option<real>)
    requires '=' !in flag && '=' !in flag' && Classify(flag, params).Flag?
    requires Classify(flag, params) == Classify(flag', params)
    ensures var (arg, arg') :=
              if value.Some? then (flag + "=" + value.value, flag' + "=" + value.value) else (flag, flag');
            Alike(Parse([arg] + rest, params, vals, parseFloat), Parse([arg'] + rest, params, vals, parseFloat))
  {
    var arg, arg' := flag, flag';
    if value.Some? {
      ClassifyWithValue(flag, value.value, params);
      ClassifyWithValue(flag', value.value, params);
      arg, arg' := flag + "=" + value.value, flag' + "=" + value.value;
    }
    hide Classify, FlagLabel, Store, Parse, AfterFlag;
    ParseFlagged(arg, rest, params, vals, parseFloat);
    ParseFlagged(arg', rest, params, vals, parseFloat);
    var t := Classify(arg, params);
    LabelIrrelevant(t, FlagLabel(arg, t.key), FlagLabel(arg', t.key), rest, params, vals, parseFloat);
  }

  lemma LabelShown(flag: string, params: seq<Param>)
    requires '=' !in flag && Classify(flag, params).Flag?
    ensures var t := Classify(flag, params);
            FlagLabel(flag, t.key) == if flag[1] == '-' then flag else flag + " (--" + t.param.name + ")"
  {
    hide ByName, ByShort, IndexOf;
    assert IndexOf(flag, '=') == -1 by { IndexOfSeparator(flag, '=', ""); }
    if flag[1] == '-' {
      IndexOfSeparator(flag[2..], '=', "");
      assert flag == "--" + flag[2..];
    } else {
      KeyIsName(flag, params);
    }
  }

  /** The errors, each with the flag as it was typed: a value missing, or one that is no number. */
  lemma FlagErrors(flag: string, text: string, rest: seq<string>, params: seq<Param>, vals: Values,
                   parseFloat: string -> Option<real>)
    requires '=' !in flag && Classify(flag, params).Flag? && Classify(flag, params).param.kind != Bool
    ensures var p := Classify(flag, params).param;
            var shown := if flag[1] == '-' then flag else flag + " (--" + p.name + ")";
            var r := Parse([flag + "=" + text] + rest, params, vals, parseFloat);
            && Parse([flag], params, vals, parseFloat) == Err(RequiresValue(shown))
            && (!p.Collects() && p.kind == Int && Atoi(text).None? ==> r == Err(InvalidInteger(shown, text)))
            && (!p.Collects() && p.kind == Float && parseFloat(text).None? ==> r == Err(InvalidNumber(shown, text)))
  {
    ClassifyWithValue(flag, text, params);
    LabelShown(flag, params);
    ParseFlagged(flag, [], params, vals, parseFloat);
    ParseFlagged(flag + "=" + text, rest, params, vals, parseFloat);
    assert [flag] + [] == [flag];
    hide Classify, FlagLabel, Parse;
  }

  // ---------- positional arguments ----------

  /** The values after the assignment, and the positionals that found no parameter. */
  function Assign(params: seq<Param>, positional: seq<string>, vals: Values): (Values, seq<string>) {
    if params == [] then (vals, positional)
    else
      var p := params[0];
      if p.kind == Bool then Assign(params[1..], positional, vals)
      else if p.variadic then (vals[p.name := List(Prior(vals, p.name) + positional)], [])
      else if p.name in vals || positional == [] then Assign(params[1..], positional, vals)
      else Assign(params[1..], positional[1..], vals[p.name := Text(positional[0])])
  }

  method AssignPositionals(params: seq<Param>, positional: seq<string>, given: Values) returns (vals: Values, pi: nat)
    ensures pi <= |positional|
    ensures (vals, positional[pi..]) == Assign(params, positional, given)
  {
    vals, pi := given, 0;
    assert positional[0..] == positional && params[0..] == params;
    for i := 0 to |params|
      invariant pi <= |positional|
      invariant Assign(params[i..], positional[pi..], vals) == Assign(params, positional, given)
    {
      var param := params[i];
      assert params[i..][0] == param && params[i..][1..] == params[i + 1..];
      if param.kind == Bool {
        continue;
      }
      if param.variadic {
        var prior := Prior(vals, param.name);
        vals := vals[param.name := List(prior + positional[pi..])];
        pi := |positional|;
        assert positional[pi..] == [];
        return;
      }
      if param.name in vals {
        continue;
      }
      if pi >= |positional| {
        continue;
      }
      vals := vals[param.name := Text(positional[pi])];
      assert positional[pi..][1..] == positional[pi + 1..];
      pi := pi + 1;
    }
  }

  /** The parameters that take one positional each: before the variadic one, no switches, not given yet. */
  function Slots(params: seq<Param>, given: set<string>): seq<string> {
    if params == [] || (params[0].kind != Bool && params[0].variadic) then []
    else if params[0].kind == Bool || params[0].name in given then Slots(params[1..], given)
    else [params[0].name] + Slots(params[1..], given + {params[0].name})
  }

  /** The parameter that takes the rest. */
  function TakesRest(params: seq<Param>): Option<string> {
    if params == [] then None
    else if params[0].kind != Bool && params[0].variadic then Some(params[0].name)
    else TakesRest(params[1..])
  }

  function Min(a: nat, b: nat): nat {
    if a < b then a else b
  }

  /** The slots got the positionals in order; one loses its own only to a variadic parameter of the same name. */
  ghost predicate SlotsFilled(slots: seq<string>, takesRest: Option<string>, positional: seq<string>, out: Values) {
    forall j :: 0 <= j < Min(|slots|, |positional|) ==>
      slots[j] in out && (out[slots[j]] == Text(positional[j]) <==> takesRest != Some(slots[j]))
  }

  /** What is left goes, in order, behind what the variadic parameter already has; without it, it is dropped. */
  ghost predicate RestTaken(takesRest: Option<string>, left: seq<string>, vals: Values, out: Values,
                            dropped: seq<string>)
  {
    match takesRest
    case Some(rest) => rest in out && out[rest] == List(Prior(vals, rest) + left) && dropped == []
    case None => dropped == left
  }

  /** Nothing but `named` and the variadic parameter has a new value. */
  ghost predicate OthersKept(named: seq<string>, takesRest: Option<string>, vals: Values, out: Values) {
    && (forall k :: k in vals && takesRest != Some(k) ==> k in out && out[k] == vals[k])
    && (forall k :: k in out ==> k in vals || k in named || takesRest == Some(k))
  }

  ghost predicate HandedOut(slots: seq<string>, takesRest: Option<string>, positional: seq<string>, vals: Values,
                            out: Values, dropped: seq<string>)
  {
    var n := Min(|slots|, |positional|);
    && SlotsFilled(slots, takesRest, positional, out)
    && RestTaken(takesRest, positional[n..], vals, out, dropped)
    && OthersKept(slots[..n], takesRest, vals, out)
  }

  lemma {:induction false} AssignedInOrder(params: seq<Param>, positional: seq<string>, vals: Values)
    ensures var (out, dropped) := Assign(params, positional, vals);
            HandedOut(Slots(params, vals.Keys), TakesRest(params), positional, vals, out, dropped)
    decreases |params|
  {
    hide HandedOut;
    if params == [] {
      HandsNothing(positional, vals);
    } else {
      var p, more := params[0], params[1..];
      if p.kind == Bool || (!p.variadic && p.name in vals) {
        AssignedInOrder(more, positional, vals);
      } else if p.variadic {
        HandsRest(p.name, positional, vals);
      } else if positional == [] {
        AssignedInOrder(more, positional, vals);
        var (out, dropped) := Assign(more, positional, vals);
        HandsNone(Slots(params, vals.Keys), Slots(more, vals.Keys), TakesRest(more), vals, out, dropped);
      } else {
        var vals' := vals[p.name := Text(positional[0])];
        AssignedInOrder(more, positional[1..], vals');
        assert vals'.Keys == vals.Keys + {p.name};
        var (out, dropped) := Assign(more, positional[1..], vals');
        HandsFirst(p.name, Slots(more, vals'.Keys), TakesRest(more), positional, vals, out, dropped);
      }
    }
  }

  lemma HandsNothing(positional: seq<string>, vals: Values)
    ensures HandedOut([], None, positional, vals, vals, positional)
  {
  }

  lemma HandsRest(name: string, positional: seq<string>, vals: Values)
    ensures HandedOut([], Some(name), positional, vals, vals[name := List(Prior(vals, name) + positional)], [])
  {
  }

  lemma HandsNone(slots: seq<string>, slots': seq<string>, takesRest: Option<string>, vals: Values, out: Values,
                  dropped: seq<string>)
    requires HandedOut(slots', takesRest, [], vals, out, dropped)
    ensures HandedOut(slots, takesRest, [], vals, out, dropped)
  {
  }

  lemma HandsFirst(name: string, slots: seq<string>, takesRest: Option<string>, positional: seq<string>, vals: Values,
                   out: Values, dropped: seq<string>)
    requires positional != [] && name !in vals
    requires HandedOut(slots, takesRest, positional[1..], vals[name := Text(positional[0])], out, dropped)
    ensures HandedOut([name] + slots, takesRest, positional, vals, out, dropped)
  {
    hide SlotsFilled, RestTaken, OthersKept;
    var more, vals' := positional[1..], vals[name := Text(positional[0])];
    var n := Min(|slots|, |more|);
    assert more[n..] == positional[n + 1..];
    assert ([name] + slots)[..n + 1] == [name] + slots[..n];
    RestOfFirst(name, positional[0], takesRest, more[n..], vals, out, dropped);
    OthersOfFirst(name, positional[0], slots[..n], takesRest, vals, out);
    assert name in out && (out[name] == Text(positional[0]) <==> takesRest != Some(name)) by {
      FirstSlot(name, positional[0], takesRest, slots[..n], more[n..], vals, out, dropped);
    }
    SlotsOfFirst(name, slots, takesRest, positional, out);
  }

  lemma FirstSlot(name: string, text: string, takesRest: Option<string>, named: seq<string>, left: seq<string>,
                  vals: Values, out: Values, dropped: seq<string>)
    requires RestTaken(takesRest, left, vals[name := Text(text)], out, dropped)
    requires OthersKept(named, takesRest, vals[name := Text(text)], out)
    ensures name in out && (out[name] == Text(text) <==> takesRest != Some(name))
  {
    assert vals[name := Text(text)][name] == Text(text);
  }

  lemma RestOfFirst(name: string, text: string, takesRest: Option<string>, left: seq<string>, vals: Values,
                    out: Values, dropped: seq<string>)
    requires name !in vals && RestTaken(takesRest, left, vals[name := Text(text)], out, dropped)
    ensures RestTaken(takesRest, left, vals, out, dropped)
  {
  }

  lemma OthersOfFirst(name: string, text: string, named: seq<string>, takesRest: Option<string>,
                      vals: Values, out: Values)
    requires name !in vals && OthersKept(named, takesRest, vals[name := Text(text)], out)
    ensures OthersKept([name] + named, takesRest, vals, out)
  {
    assert forall k :: k in vals ==> k in vals[name := Text(text)];
  }

  lemma SlotsOfFirst(name: string, slots: seq<string>, takesRest: Option<string>, positional: seq<string>, out: Values)
    requires positional != [] && SlotsFilled(slots, takesRest, positional[1..], out)
    requires name in out && (out[name] == Text(positional[0]) <==> takesRest != Some(name))
    ensures SlotsFilled([name] + slots, takesRest, positional, out)
  {
    var slots' := [name] + slots;
    forall j | 0 <= j < Min(|slots'|, |positional|)
      ensures slots'[j] in out && (out[slots'[j]] == Text(positional[j]) <==> takesRest != Some(slots'[j]))
    {
      if j > 0 { assert slots[j - 1] in out && positional[1..][j - 1] == positional[j]; }
    }
  }
}

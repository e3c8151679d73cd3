/** What `ArgReader` reads, as functions of the text that remains: each gives a
    result and what remains after it. */
module ArgGrammar {
  import opened Errors

  datatype ParseError = EOF | Expected(c: char) | Unexpected(c: char) | BadNumber | FileArgument

  /** The values a reader builds: both quoted text and identifiers are strings. */
  datatype Value = Str(s: string) | Num(r: real) | True | Obj(fields: map<string, Value>) | Arr(items: seq<Value>)

  /** Where a read stopped, and with what. */
  datatype Read<+T> = Got(value: T, rest: string) | Error(error: ParseError, rest: string)

  /** The number library: parsing of a token, and printing. */
  datatype Numbers = Numbers(parse: string -> Option<real>, show: real -> string)

  predicate IsSpace(c: char) { c == ' ' || c == '\t' || c == '\n' || c == '\r' }

  predicate IsAlpha(c: char) { 'a' <= c <= 'z' || 'A' <= c <= 'Z' }

  predicate IsDigit(c: char) { '0' <= c <= '9' }

  /** A character of an identifier after the first: a colon is one of them. */
  predicate IsIdChar(c: char) { IsAlpha(c) || IsDigit(c) || c == '_' || c == '-' || c == ':' || c == '$' }

  predicate IsNumeric(c: char)
  {
    IsDigit(c) || c == '-' || c == '+' || c == '.' || c == 'e' || c == 'E' || c == 'x' || c == 'X'
  }

  predicate StartsNumber(c: char) { IsDigit(c) || c == '-' || c == '+' || c == '.' }

  predicate IsQuote(c: char) { c == '"' || c == '\'' }

  function Skip(t: string): (rest: string)
    ensures |rest| <= |t| && (rest == [] || !IsSpace(rest[0]))
  {
    if t != [] && IsSpace(t[0]) then Skip(t[1..]) else t
  }

  datatype RuneSet = IdRunes | NumericRunes

  predicate Test(runes: RuneSet, c: char)
  {
    match runes
    case IdRunes => IsIdChar(c)
    case NumericRunes => IsNumeric(c)
  }

  /** The longest beginning made of characters of the set, and what remains. */
  function Span(runes: RuneSet, t: string): (r: (string, string))
    ensures |r.0| + |r.1| == |t|
  {
    if t != [] && Test(runes, t[0]) then
      var (run, rest) := Span(runes, t[1..]);
      ([t[0]] + run, rest)
    else ("", t)
  }

  /** Whether the next significant character is `c`, and what remains. */
  function TakeIf(t: string, c: char): (r: (bool, string))
    ensures |r.1| <= |t| && (r.0 ==> |r.1| < |t|)
  {
    var u := if c != ' ' then Skip(t) else t;
    if u != [] && u[0] == c then (true, u[1..]) else (false, u)
  }

  function Prepend(s: string, r: Read<string>): Read<string>
  {
    match r
    case Got(u, rest) => Got(s + u, rest)
    case Error(e, rest) => Error(e, rest)
  }

  /** The text up to an unescaped `q`; a backslash takes the next character as it is. */
  function Quoted(t: string, q: char): (r: Read<string>)
    ensures |r.rest| <= |t| && (r.Got? ==> |r.rest| < |t|)
  {
    if t == [] then Error(EOF, t)
    else if t[0] == '\\' then Escaped(t[1..], q)
    else if t[0] == q then Got("", t[1..])
    else Prepend([t[0]], Quoted(t[1..], q))
  }

  /** After a backslash. */
  function Escaped(t: string, q: char): (r: Read<string>)
    ensures |r.rest| <= |t| && (r.Got? ==> |r.rest| < |t|)
  {
    if t == [] then Error(EOF, t) else Prepend([t[0]], Quoted(t[1..], q))
  }

  function Tile(s: string): (r: string)
    ensures |r| == |s|
  {
    if s == [] then [] else [if s[0] == '-' then '_' else s[0]] + Tile(s[1..])
  }

  /** An identifier: a letter, then identifier characters.  Anything else, quoted
      text included, reads as the end of input. */
  function Id(t: string, tile: bool): (r: Read<string>)
    ensures |r.rest| <= |t| && (r.Got? ==> |r.rest| < |t|)
    ensures r.Error? ==> r.error == EOF
  {
    var u := Skip(t);
    if u == [] || !IsAlpha(u[0]) then Error(EOF, u)
    else
      var (run, rest) := Span(IdRunes, u[1..]);
      Got([u[0]] + if tile then Tile(run) else run, rest)
  }

  function Number(lib: Numbers, t: string): (r: Read<Value>)
    ensures |r.rest| <= |t| && (r.Got? ==> |r.rest| < |t|)
  {
    var (token, rest) := Span(NumericRunes, t);
    if token == "" then Error(BadNumber, rest)
    else
      match lib.parse(token)
      case Some(r) => Got(Num(r), rest)
      case None => Error(BadNumber, rest)
  }

  /** One value.  On success at least one character is gone. */
  function Any(lib: Numbers, t: string): (r: Read<Value>)
    ensures |r.rest| <= |t| && (r.Got? ==> |r.rest| < |t|)
    decreases |t|, 0
  {
    var u := Skip(t);
    if u == [] then Error(EOF, u)
    else if u[0] == '{' then
      match Object(lib, u[1..])
      case Got(m, rest) => Got(Obj(m), rest)
      case Error(e, rest) => Error(e, rest)
    else if u[0] == '[' then Array(lib, u[1..], [])
    else if IsQuote(u[0]) then
      match Quoted(u[1..], u[0])
      case Got(s, rest) => Got(Str(s), rest)
      case Error(e, rest) => Error(e, rest)
    else if StartsNumber(u[0]) then Number(lib, u)
    else if IsAlpha(u[0]) then
      match Id(u, false)
      case Got(s, rest) => Got(Str(s), rest)
      case Error(e, rest) => Error(e, rest)
    else Error(Unexpected(u[0]), u[1..])
  }

  /** `sign`, then a value. */
  function Assign(lib: Numbers, t: string, sign: char): (r: Read<Value>)
    ensures |r.rest| <= |t| && (r.Got? ==> |r.rest| < |t|)
    decreases |t|, 1
  {
    var (ok, u) := TakeIf(Skip(t), sign);
    if !ok then Error(Expected(sign), u) else Any(lib, u)
  }

  /** The inside of an object; files named by `@` are not read here. */
  function Object(lib: Numbers, t: string): (r: Read<map<string, Value>>)
    ensures |r.rest| <= |t| && (r.Got? ==> |r.rest| < |t|)
    decreases |t|, 3
  {
    var (file, u) := TakeIf(t, '@');
    if file then Error(FileArgument, u) else Fields(lib, u, map[])
  }

  function Fields(lib: Numbers, t: string, res: map<string, Value>): (r: Read<map<string, Value>>)
    ensures |r.rest| <= |t| && (r.Got? ==> |r.rest| < |t|)
    decreases |t|, 2
  {
    var (closed, u) := TakeIf(t, '}');
    if closed then Got(res, u)
    else
      match Id(u, true)
      case Error(e, rest) => Error(e, rest)
      case Got(key, v) =>
        match Assign(lib, v, ':')
        case Error(e, rest) => Error(e, rest)
        case Got(val, w) => Fields(lib, w, res[key := val])
  }

  function Array(lib: Numbers, t: string, res: seq<Value>): (r: Read<Value>)
    ensures |r.rest| <= |t| && (r.Got? ==> |r.rest| < |t|)
    decreases |t|, 1
  {
    var u := Skip(t);
    if u == [] then Error(EOF, u)
    else if u[0] == ']' then Got(Arr(res), u[1..])
    else
      match Any(lib, u)
      case Error(e, rest) => Error(e, rest)
      case Got(val, w) => Array(lib, w, res + [val])
  }

  function SkipDashes(t: string): (rest: string)
    ensures |rest| <= |t|
  {
    var (dash, u) := TakeIf(t, '-');
    if dash then TakeIf(u, '-').1 else u
  }

  /** The arguments of a command: an object in braces, or `--key=value` pairs. */
  function Set(lib: Numbers, t: string): (r: Read<map<string, Value>>)
    ensures |r.rest| <= |t|
  {
    var (file, u) := TakeIf(t, '@');
    if file then Error(FileArgument, u)
    else
      var (braced, v) := TakeIf(u, '{');
      if braced then Object(lib, v) else Pairs(lib, v, map[])
  }

  /** A key with nothing after its sign, at the end of the input, is a flag; the
      first such key also becomes the argument list, unless there is one. */
  function WithFlag(res: map<string, Value>, key: string): map<string, Value>
  {
    var m := res[key := True];
    if "args" in m then m else m["args" := Arr([Str(key)])]
  }

  function Pairs(lib: Numbers, t: string, res: map<string, Value>): (r: Read<map<string, Value>>)
    ensures |r.rest| <= |t|
    decreases |t|
  {
    match Id(SkipDashes(t), true)
    case Error(_, rest) => Got(res, rest)
    case Got(key, v) =>
      match Assign(lib, v, '=')
      case Error(e, rest) => if e == EOF then Got(WithFlag(res, key), rest) else Error(e, rest)
      case Got(val, w) => Pairs(lib, w, res[key := val])
  }

  lemma PrependTwice(a: string, b: string, r: Read<string>)
    ensures Prepend(a, Prepend(b, r)) == Prepend(a + b, r)
  {
    if r.Got? {
      assert (a + b) + r.value == a + (b + r.value);
    }
  }

  lemma {:induction false} TileSnoc(s: string, c: char)
    ensures Tile(s + [c]) == Tile(s) + [if c == '-' then '_' else c]
  {
    if s != [] {
      TileSnoc(s[1..], c);
      assert (s + [c])[1..] == s[1..] + [c];
    }
  }

  lemma PrependNothing(r: Read<string>)
    ensures Prepend("", r) == r
  {
    if r.Got? {
      assert "" + r.value == r.value;
    }
  }
}

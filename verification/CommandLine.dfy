/** The client's command line: arguments are quoted into one string, which the
    daemon side reads back as the settings that were given. */
module CommandLine {
  import opened ArgGrammar
  import opened ArgRoundTrip

  // ---- The client's loop ----

  /** The first place of `c`, or -1. */
  function Index(s: string, c: char): (i: int)
    ensures -1 <= i < |s|
  {
    if s == [] then -1
    else if s[0] == c then 0
    else
      var i := Index(s[1..], c);
      if i < 0 then -1 else i + 1
  }

  /** Double quotes get a backslash; nothing else does, not even a backslash. */
  function EscapeQuotes(s: string): string
  {
    if s == [] then []
    else (if s[0] == '"' then ['\\', '"'] else [s[0]]) + EscapeQuotes(s[1..])
  }

  function QuoteArg(arg: string): string
  {
    var sp := Index(arg, ' ');
    if sp < 0 then arg
    else
      var i := Index(arg, '=');
      if 0 <= i < sp then arg[..i + 1] + "\"" + EscapeQuotes(arg[i + 1..]) + "\""
      else "\"" + EscapeQuotes(arg) + "\""
  }

  predicate IsOption(arg: string) { arg != [] && arg[0] == '-' }

  /** All options, each with a space after it. */
  function QuoteAll(args: seq<string>): string
  {
    if args == [] then []
    else if IsOption(args[0]) then QuoteArg(args[0]) + " " + QuoteAll(args[1..])
    else QuoteAll(args[1..])
  }

  /** The first argument that is not an option and not empty. */
  function Body(args: seq<string>): string
  {
    if args == [] then "" else if IsOption(args[0]) || args[0] == "" then Body(args[1..]) else args[0]
  }

  predicate IsPositional(arg: string) { arg != "" && arg[0] != '-' }

  /** The body is the first argument that is neither empty nor begins with a dash;
      without one it is empty. */
  lemma {:induction false} BodyIsFirst(args: seq<string>)
    ensures || (Body(args) == "" && forall j :: 0 <= j < |args| ==> !IsPositional(args[j]))
            || exists i :: 0 <= i < |args| && args[i] == Body(args) && IsPositional(args[i])
                           && forall j :: 0 <= j < i ==> !IsPositional(args[j])
  {
    if args != [] {
      if IsPositional(args[0]) {
        assert args[0] == Body(args);
      } else {
        BodyIsFirst(args[1..]);
        if i :| 0 <= i < |args[1..]| && args[1..][i] == Body(args[1..]) && IsPositional(args[1..][i])
                && forall j :: 0 <= j < i ==> !IsPositional(args[1..][j]) {
          assert args[i + 1] == Body(args);
          assert forall j :: 0 < j < i + 1 ==> args[j] == args[1..][j - 1];
        } else {
          assert forall j :: 0 < j < |args| ==> args[j] == args[1..][j - 1];
        }
      }
    }
  }

  /** One turn of the loop for an option. */
  method AppendOption(argString: string, arg: string) returns (s: string)
    ensures s == argString + (QuoteArg(arg) + " ")
  {
    var written: string;
    var sp := Index(arg, ' ');
    if sp >= 0 {
      var i := Index(arg, '=');
      if 0 <= i < sp {
        written := arg[..i + 1] + "\"" + EscapeQuotes(arg[i + 1..]) + "\"";
      } else {
        written := "\"" + EscapeQuotes(arg) + "\"";
      }
    } else {
      written := arg;
    }
    s := argString + (written + " ");
  }

  /** The loop over the arguments. */
  method SplitArgs(args: seq<string>) returns (body: string, argString: string)
    ensures body == Body(args) && argString == QuoteAll(args)
  {
    body, argString := "", "";
    assert args[0..] == args;
    assert argString + QuoteAll(args[0..]) == QuoteAll(args);
    for k := 0 to |args|
      invariant argString + QuoteAll(args[k..]) == QuoteAll(args)
      invariant Body(args) == if body == "" then Body(args[k..]) else body
    {
      var arg := args[k];
      assert args[k..][1..] == args[k + 1..];
      if !IsOption(arg) {
        if body == "" {
          body := arg;
        }
      } else {
        ghost var before := argString;
        argString := AppendOption(argString, arg);
        Associates(before, QuoteArg(arg) + " ", QuoteAll(args[k + 1..]));
      }
    }
    assert args[|args|..] == [];
    assert argString + "" == argString;
  }

  lemma Associates(a: string, b: string, c: string)
    ensures (a + b) + c == a + (b + c)
  {
  }

  // ---- Quoting and reading one value ----

  /** A value with its quotes escaped, in front of what follows. */
  function EscapeOnto(s: string, rest: string): string
  {
    if s == [] then rest
    else if s[0] == '"' then ['\\'] + (['"'] + EscapeOnto(s[1..], rest))
    else [s[0]] + EscapeOnto(s[1..], rest)
  }

  lemma {:induction false} EscapeIsOnto(s: string, rest: string)
    ensures EscapeQuotes(s) + rest == EscapeOnto(s, rest)
  {
    if s == [] {
      assert EscapeQuotes(s) + rest == rest;
    } else {
      EscapeIsOnto(s[1..], rest);
      Associates(if s[0] == '"' then ['\\', '"'] else [s[0]], EscapeQuotes(s[1..]), rest);
      assert s[0] == '"' ==> ['\\', '"'] + EscapeOnto(s[1..], rest) == ['\\'] + (['"'] + EscapeOnto(s[1..], rest));
    }
  }

  /** Reading back a quoted value gives exactly the value, with reading stopped after
      the closing quote, if and only if it has no backslash. */
  lemma QuotedExactly(v: string, rest: string)
    ensures Quoted(EscapeQuotes(v) + (['"'] + rest), '"') == Got(v, rest) <==> '\\' !in v
  {
    EscapeIsOnto(v, ['"'] + rest);
    if '\\' !in v {
      PlainQuoted(v, rest);
    } else {
      BackslashLost(v, rest);
    }
  }

  lemma Tail(c: char, t: string)
    ensures ([c] + t)[1..] == t
  {
  }

  lemma {:induction false} PlainQuoted(v: string, rest: string)
    requires '\\' !in v
    ensures Quoted(EscapeOnto(v, ['"'] + rest), '"') == Got(v, rest)
  {
    if v == [] {
      Tail('"', rest);
    } else {
      PlainQuoted(v[1..], rest);
      QuoteOne(v, ['"'] + rest);
      assert [v[0]] + v[1..] == v;
    }
  }

  /** Reading past the first character of a value that is not a backslash. */
  lemma QuoteOne(v: string, tail: string)
    requires v != [] && v[0] != '\\'
    ensures Quoted(EscapeOnto(v, tail), '"') == Prepend([v[0]], Quoted(EscapeOnto(v[1..], tail), '"'))
  {
    var more := EscapeOnto(v[1..], tail);
    Tail(v[0], more);
    Tail('\\', ['"'] + more);
    assert v[0] == '"' ==> Quoted(EscapeOnto(v, tail), '"') == Escaped(['"'] + more, '"');
  }

  /** How many backslashes a string starts with. */
  function Backslashes(s: string): nat
  {
    if s != [] && s[0] == '\\' then 1 + Backslashes(s[1..]) else 0
  }

  /** Whatever is read of a value that starts with a backslash is shorter or starts
      with fewer backslashes. */
  ghost predicate Less(r: Read<string>, v: string)
  {
    r.Got? ==> |r.value| < |v| || Backslashes(r.value) < Backslashes(v)
  }

  /** A backslash before another character takes that character as it is. */
  lemma AfterBackslash(v: string, tail: string)
    requires |v| >= 2 && v[0] == '\\' && v[1] != '"'
    ensures Quoted(EscapeOnto(v, tail), '"') == Prepend([v[1]], Quoted(EscapeOnto(v[2..], tail), '"'))
  {
    var w := v[1..];
    assert w[1..] == v[2..];
    Tail('\\', EscapeOnto(w, tail));
    assert Quoted(EscapeOnto(v, tail), '"') == Escaped(EscapeOnto(w, tail), '"');
    Tail(v[1], EscapeOnto(v[2..], tail));
  }

  /** A backslash before a quote meets the backslash that escapes the quote, and the
      value ends there. */
  lemma BeforeQuote(v: string, tail: string)
    requires |v| >= 2 && v[0] == '\\' && v[1] == '"'
    ensures Quoted(EscapeOnto(v, tail), '"') == Got("\\", EscapeOnto(v[2..], tail))
  {
    var w := v[1..];
    var more := EscapeOnto(v[2..], tail);
    assert w[1..] == v[2..];
    Tail('\\', EscapeOnto(w, tail));
    Tail('\\', ['"'] + more);
    Tail('"', more);
    assert Escaped(EscapeOnto(w, tail), '"') == Prepend(['\\'], Quoted(['"'] + more, '"'));
    assert ['\\'] + "" == "\\";
  }

  /** A backslash at the very end takes the closing quote. */
  lemma AtTheEnd(v: string, rest: string)
    requires v == ['\\']
    ensures Quoted(EscapeOnto(v, ['"'] + rest), '"') == Prepend(['"'], Quoted(rest, '"'))
  {
    assert v[1..] == [];
    Tail('\\', ['"'] + rest);
    Tail('"', rest);
  }

  lemma BackslashesHead(c: char, s: string)
    ensures Backslashes([c] + s) == if c == '\\' then 1 + Backslashes(s) else 0
  {
    Tail(c, s);
  }

  lemma {:induction false} LeadingLost(v: string, rest: string)
    requires v != [] && v[0] == '\\'
    ensures Less(Quoted(EscapeOnto(v, ['"'] + rest), '"'), v)
    decreases |v|
  {
    var tail := ['"'] + rest;
    if |v| == 1 {
      AtTheEnd(v, rest);
      BackslashesHead('"', if Quoted(rest, '"').Got? then Quoted(rest, '"').value else "");
    } else if v[1] == '"' {
      BeforeQuote(v, tail);
    } else {
      AfterBackslash(v, tail);
      var w := v[2..];
      var r := Quoted(EscapeOnto(w, tail), '"');
      if r.Got? {
        BackslashesHead(v[1], r.value);
        assert Backslashes(v) == 1 + Backslashes(v[1..]) && v[1..][1..] == w;
        if w == [] {
          Tail('"', rest);
        } else if w[0] == '\\' {
          LeadingLost(w, rest);
        } else {
          QuoteOne(w, tail);
        }
      }
    }
  }

  /** A value with a backslash is never read back, wherever reading stops. */
  lemma {:induction false} BackslashLost(v: string, rest: string)
    requires '\\' in v
    ensures var r := Quoted(EscapeOnto(v, ['"'] + rest), '"'); r.Got? ==> r.value != v
  {
    if v[0] == '\\' {
      LeadingLost(v, rest);
    } else {
      BackslashLost(v[1..], rest);
      QuoteOne(v, ['"'] + rest);
      var r := Quoted(EscapeOnto(v[1..], ['"'] + rest), '"');
      assert r.Got? ==> ([v[0]] + r.value)[1..] == r.value;
    }
  }

  // ---- The whole command line ----

  /** A positional argument, or `--key=value`. */
  datatype Arg = Positional(text: string) | Option(key: string, value: string)

  /** A value that survives: an identifier, a number, or text with a space in it but
      no backslash. */
  predicate Survives(lib: Numbers, v: string)
  {
    || IsName(v)
    || IsToken(lib, v)
    || (' ' in v && '\\' !in v)
  }

  predicate IsToken(lib: Numbers, v: string)
  {
    v != [] && StartsNumber(v[0]) && (forall i :: 0 <= i < |v| ==> IsNumeric(v[i])) && lib.parse(v).Some?
  }

  function ValueOf(lib: Numbers, v: string): Value
  {
    if IsToken(lib, v) then Num(lib.parse(v).value) else Str(v)
  }

  predicate Sound(lib: Numbers, a: Arg)
  {
    match a
    case Positional(text) => !IsOption(text)
    case Option(key, value) => IsName(key) && Survives(lib, value)
  }

  function Written(a: Arg): string
  {
    match a
    case Positional(text) => text
    case Option(key, value) => "--" + (key + ("=" + value))
  }

  function WrittenAll(args: seq<Arg>): seq<string>
  {
    if args == [] then [] else [Written(args[0])] + WrittenAll(args[1..])
  }

  /** The settings the options stand for; dashes in keys become underscores, and of
      two with the same key the later stays. */
  function Settings(lib: Numbers, args: seq<Arg>, m: map<string, Value>): map<string, Value>
  {
    if args == [] then m
    else
      match args[0]
      case Positional(_) => Settings(lib, args[1..], m)
      case Option(key, value) => Settings(lib, args[1..], m[Tile(key) := ValueOf(lib, value)])
  }

  /** The value as it stands in the argument string. */
  function Shown(v: string): string
  {
    if ' ' in v then "\"" + (EscapeQuotes(v) + "\"") else v
  }

  lemma {:induction false} IndexIn(s: string, c: char)
    ensures Index(s, c) < 0 <==> c !in s
  {
    if s != [] {
      IndexIn(s[1..], c);
      assert s == [s[0]] + s[1..];
    }
  }

  lemma {:induction false} IndexAfter(a: string, b: string, c: char)
    requires c !in a
    ensures Index(a + b, c) == if Index(b, c) < 0 then -1 else |a| + Index(b, c)
  {
    if a == [] {
      assert a + b == b;
    } else {
      IndexAfter(a[1..], b, c);
      assert (a + b)[1..] == a[1..] + b;
    }
  }

  /** The places of the first space and the first equals sign of an option. */
  lemma OptionIndexes(key: string, value: string)
    requires IsName(key)
    ensures var arg := Written(Option(key, value));
            && arg == ("--" + key) + ("=" + value)
            && Index(arg, '=') == |key| + 2
            && (if ' ' in value then Index(arg, ' ') > |key| + 2 else Index(arg, ' ') < 0)
  {
    var head := "--" + key;
    assert Written(Option(key, value)) == head + ("=" + value);
    IndexAfter(head, "=" + value, ' ');
    IndexAfter("=", value, ' ');
    IndexAfter(head, "=" + value, '=');
    IndexIn(value, ' ');
  }

  lemma QuoteOption(key: string, value: string)
    requires IsName(key)
    ensures QuoteArg(Written(Option(key, value))) == "--" + (key + ("=" + Shown(value)))
  {
    OptionIndexes(key, value);
    if ' ' in value {
      var arg := Written(Option(key, value));
      SplitAtSign("--" + key, value);
      Enclose(key, EscapeQuotes(value));
    }
  }

  lemma SplitAtSign(head: string, value: string)
    ensures (head + ("=" + value))[..|head| + 1] == head + "="
    ensures (head + ("=" + value))[|head| + 1..] == value
  {
  }

  lemma Enclose(key: string, e: string)
    ensures ("--" + key) + "=" + "\"" + e + "\"" == "--" + (key + ("=" + ("\"" + (e + "\""))))
  {
  }

  lemma ReadSpaced(lib: Numbers, v: string, rest: string)
    requires '\\' !in v
    ensures Any(lib, "\"" + (EscapeQuotes(v) + "\"") + rest) == Got(Str(v), rest)
  {
    var t := EscapeQuotes(v) + (['"'] + rest);
    assert "\"" + (EscapeQuotes(v) + "\"") + rest == ['"'] + t;
    QuotedExactly(v, rest);
    Tail('"', t);
    assert Skip(['"'] + t) == ['"'] + t;
  }

  lemma ReadToken(lib: Numbers, v: string, rest: string)
    requires IsToken(lib, v) && Delimited(rest)
    ensures Any(lib, v + rest) == Got(Num(lib.parse(v).value), rest)
  {
    NameBefore(v, rest);
    ReadSpan(NumericRunes, v, rest);
    assert (v + rest)[0] == v[0] && Skip(v + rest) == v + rest;
  }

  lemma ReadName(lib: Numbers, v: string, rest: string)
    requires IsName(v) && Delimited(rest)
    ensures Any(lib, v + rest) == Got(Str(v), rest)
  {
    NameBefore(v, rest);
    ReadId(v, rest, false);
    assert (v + rest)[0] == v[0] && Skip(v + rest) == v + rest;
  }

  /** A value that survives is read back from what is shown of it. */
  lemma ReadShown(lib: Numbers, v: string, rest: string)
    requires Survives(lib, v) && Delimited(rest)
    ensures Any(lib, Shown(v) + rest) == Got(ValueOf(lib, v), rest)
  {
    if ' ' in v {
      ReadSpaced(lib, v, rest);
    } else if IsToken(lib, v) {
      ReadToken(lib, v, rest);
    } else {
      ReadName(lib, v, rest);
    }
  }

  lemma {:induction false} NameIsItself(s: string)
    ensures NameOnto(s, "") == s
  {
    if s != [] {
      NameIsItself(s[1..]);
      assert [s[0]] + s[1..] == s;
    }
  }

  lemma NameBefore(s: string, rest: string)
    ensures NameOnto(s, rest) == s + rest
  {
    NameAppends(s, "", rest);
    NameIsItself(s);
    assert "" + rest == rest;
  }

  /** A key is tiled place by place. */
  lemma {:induction false} TileAt(s: string, i: nat)
    requires i < |s|
    ensures Tile(s)[i] == if s[i] == '-' then '_' else s[i]
  {
    if i > 0 {
      TileAt(s[1..], i - 1);
    }
  }

  /** An option may have two dashes, one or none. */
  lemma DashesAreOptional(key: string, rest: string)
    requires IsName(key)
    ensures SkipDashes("--" + (key + rest)) == SkipDashes("-" + (key + rest)) == SkipDashes(key + rest) == key + rest
  {
    var named := key + rest;
    assert named[0] == key[0];
    assert ("-" + named)[1..] == named && ("--" + named)[1..] == "-" + named;
    assert TakeIf("--" + named, '-') == (true, "-" + named) && TakeIf("-" + named, '-') == (true, named);
  }

  /** The dashes and the key of an option are read, and nothing of what follows. */
  lemma ReadKey(key: string, rest: string)
    requires IsName(key) && (rest == [] || !IsIdChar(rest[0]))
    ensures Id(SkipDashes("--" + (key + rest)), true) == Got(Tile(key), rest)
  {
    var named := key + rest;
    var t := "--" + named;
    NameBefore(key, rest);
    ReadId(key, rest, true);
    assert named[0] == key[0];
    assert t[1..] == "-" + named && ("-" + named)[1..] == named;
    assert TakeIf(t, '-') == (true, "-" + named) && TakeIf("-" + named, '-') == (true, named);
  }

  /** One option: its key, the sign, and whatever can be read as a value after it. */
  lemma OptionTurn(lib: Numbers, key: string, after: string, m: map<string, Value>)
    requires IsName(key)
    ensures Pairs(lib, "--" + (key + ("=" + after)), m) ==
              match Any(lib, after)
              case Got(val, rest) => Pairs(lib, rest, m[Tile(key) := val])
              case Error(e, rest) => if e == EOF then Got(WithFlag(m, Tile(key)), rest) else Error(e, rest)
  {
    var sign := "=" + after;
    ReadKey(key, sign);
    assert sign[1..] == after && Skip(sign) == sign;
    assert TakeIf(sign, '=') == (true, after);
  }

  /** One option is read: its key, its value, and nothing of what follows. */
  lemma ReadOption(lib: Numbers, key: string, value: string, rest: string, m: map<string, Value>)
    requires IsName(key) && Survives(lib, value) && Delimited(rest)
    ensures Pairs(lib, "--" + (key + ("=" + (Shown(value) + rest))), m) ==
              Pairs(lib, rest, m[Tile(key) := ValueOf(lib, value)])
  {
    OptionTurn(lib, key, Shown(value) + rest, m);
    ReadShown(lib, value, rest);
  }

  lemma PairsSkip(lib: Numbers, t: string, m: map<string, Value>)
    ensures Pairs(lib, [' '] + t, m) == Pairs(lib, t, m)
  {
    SkipSpace(t);
  }

  /** Arguments that survive are read, whatever follows them. */
  lemma {:induction false} ReadAll(lib: Numbers, args: seq<Arg>, tail: string, m: map<string, Value>)
    requires forall i :: 0 <= i < |args| ==> Sound(lib, args[i])
    ensures Pairs(lib, QuoteAll(WrittenAll(args)) + tail, m) == Pairs(lib, tail, Settings(lib, args, m))
    decreases |args|
  {
    if args == [] {
      assert QuoteAll(WrittenAll(args)) + tail == tail;
    } else {
      var more := QuoteAll(WrittenAll(args[1..]));
      assert WrittenAll(args)[1..] == WrittenAll(args[1..]);
      assert Sound(lib, args[0]);
      match args[0]
      case Positional(_) => ReadAll(lib, args[1..], tail, m);
      case Option(key, value) =>
        var next := m[Tile(key) := ValueOf(lib, value)];
        QuoteOption(key, value);
        Regroup(key, Shown(value), more, tail);
        ReadOption(lib, key, value, [' '] + (more + tail), m);
        PairsSkip(lib, more + tail, next);
        ReadAll(lib, args[1..], tail, next);
    }
  }

  lemma Regroup(key: string, shown: string, more: string, tail: string)
    ensures (("--" + (key + ("=" + shown))) + " " + more) + tail ==
              "--" + (key + ("=" + (shown + ([' '] + (more + tail)))))
  {
  }

  /** A command line of positional arguments and options whose values survive is read
      back, after the client's quoting, as exactly the settings given; positional
      arguments take no part in it. */
  lemma CommandLineRoundTrip(lib: Numbers, args: seq<Arg>)
    requires forall i :: 0 <= i < |args| ==> Sound(lib, args[i])
    ensures Set(lib, QuoteAll(WrittenAll(args))) == Got(Settings(lib, args, map[]), "")
  {
    var t := QuoteAll(WrittenAll(args));
    ReadAll(lib, args, "", map[]);
    assert t + "" == t;
    StartsWithDash(lib, args);
    SetIsPairs(lib, t);
  }

  lemma SetIsPairs(lib: Numbers, t: string)
    requires t == [] || t[0] == '-' || t[0] == '"'
    ensures Set(lib, t) == Pairs(lib, t, map[])
  {
    assert TakeIf(t, '@') == (false, t) && TakeIf(t, '{') == (false, t);
  }

  lemma {:induction false} StartsWithDash(lib: Numbers, args: seq<Arg>)
    requires forall i :: 0 <= i < |args| ==> Sound(lib, args[i])
    ensures var t := QuoteAll(WrittenAll(args)); t == [] || t[0] == '-'
    decreases |args|
  {
    if args != [] {
      StartsWithDash(lib, args[1..]);
      assert WrittenAll(args)[1..] == WrittenAll(args[1..]);
      assert Sound(lib, args[0]);
      if args[0].Option? {
        QuoteOption(args[0].key, args[0].value);
      }
    }
  }

  /** Which option the setting `k` comes from: the last one with that key. */
  ghost predicate LastWith(args: seq<Arg>, k: string, i: nat)
  {
    && i < |args| && args[i].Option? && Tile(args[i].key) == k
    && forall j :: i < j < |args| && args[j].Option? ==> Tile(args[j].key) != k
  }

  /** The settings hold, for every key given, the value of the last option with it,
      and nothing else: with distinct keys, exactly the pairs given. */
  lemma {:induction false} SettingsAreTheOptions(lib: Numbers, args: seq<Arg>, m: map<string, Value>, k: string)
    ensures var s := Settings(lib, args, m);
            || (exists i: nat :: LastWith(args, k, i) && k in s && s[k] == ValueOf(lib, args[i].value))
            || ((forall i :: 0 <= i < |args| && args[i].Option? ==> Tile(args[i].key) != k)
                && (k in s <==> k in m) && (k in m ==> s[k] == m[k]))
    decreases |args|
  {
    if args != [] {
      var next := match args[0]
                  case Positional(_) => m
                  case Option(key, value) => m[Tile(key) := ValueOf(lib, value)];
      SettingsAreTheOptions(lib, args[1..], next, k);
      if i: nat :| LastWith(args[1..], k, i) && k in Settings(lib, args, m)
                   && Settings(lib, args, m)[k] == ValueOf(lib, args[1..][i].value) {
        assert forall j :: i + 1 < j < |args| ==> args[j] == args[1..][j - 1];
        assert LastWith(args, k, i + 1);
      } else {
        assert forall j :: 0 < j < |args| ==> args[j] == args[1..][j - 1];
        if args[0].Option? && Tile(args[0].key) == k {
          assert LastWith(args, k, 0);
        }
      }
    }
  }
}

/** Exactly which command lines are read back: which values are lost, which keys
    become flags, and where reading stops. */
module CommandLineExact {
  import opened ArgGrammar
  import opened ArgRoundTrip
  import opened CommandLine

  // ---- How much a read takes ----

  /** Quoted text is shorter than what it is read from, by its closing quote. */
  lemma {:induction false} QuotedTakes(t: string, q: char)
    ensures Quoted(t, q).Got? ==> |Quoted(t, q).value| + 1 + |Quoted(t, q).rest| <= |t|
    decreases |t|
  {
    if t != [] {
      if t[0] == '\\' {
        if |t| > 1 {
          assert t[1..][1..] == t[2..];
          QuotedTakes(t[2..], q);
        }
      } else if t[0] != q {
        QuotedTakes(t[1..], q);
      }
    }
  }

  lemma {:induction false} SpanIsPrefix(runes: RuneSet, t: string)
    ensures Span(runes, t).0 + Span(runes, t).1 == t
  {
    if t != [] && Test(runes, t[0]) {
      SpanIsPrefix(runes, t[1..]);
    }
  }

  lemma {:induction false} ArrayIsArr(lib: Numbers, t: string, res: seq<Value>)
    ensures Array(lib, t, res).Got? ==> Array(lib, t, res).value.Arr?
    decreases |t|
  {
    var u := Skip(t);
    if u != [] && u[0] != ']' && Any(lib, u).Got? {
      ArrayIsArr(lib, Any(lib, u).rest, res + [Any(lib, u).value]);
    }
  }

  // ---- Which values are read back ----

  /** A value without a space that is read back is a name or a number. */
  lemma OnlySurvivors(lib: Numbers, v: string, rest: string)
    requires Any(lib, v + rest) == Got(ValueOf(lib, v), rest)
    ensures IsName(v) || IsToken(lib, v)
  {
    var t := v + rest;
    var u := Skip(t);
    if !IsToken(lib, v) {
      assert Any(lib, t).value == Str(v);
      if u[0] == '[' {
        ArrayIsArr(lib, u[1..], []);
      } else if IsQuote(u[0]) {
        QuotedTakes(u[1..], u[0]);
      } else if !StartsNumber(u[0]) && u[0] != '{' {
        var (run, left) := Span(IdRunes, u[1..]);
        SpanIsPrefix(IdRunes, u[1..]);
        SpanTests(IdRunes, u[1..]);
        assert v == [u[0]] + run;
      }
    }
  }

  /** Exactly which values are lost: what the client writes of a value is read back as
      that value, up to exactly its end, if and only if the value survives: it is a
      name, a number, or has a space and no backslash. */
  lemma ReadBackExactly(lib: Numbers, v: string, rest: string)
    requires Delimited(rest)
    ensures Any(lib, Shown(v) + rest) == Got(ValueOf(lib, v), rest) <==> Survives(lib, v)
  {
    if Survives(lib, v) {
      ReadShown(lib, v, rest);
    } else if ' ' !in v {
      if Any(lib, v + rest) == Got(ValueOf(lib, v), rest) {
        OnlySurvivors(lib, v, rest);
      }
    } else {
      ShownQuoted(lib, v, rest);
      QuotedExactly(v, rest);
    }
  }

  /** A value with a space is read as quoted text. */
  lemma ShownQuoted(lib: Numbers, v: string, rest: string)
    requires ' ' in v
    ensures !IsToken(lib, v)
    ensures Any(lib, Shown(v) + rest) ==
              match Quoted(EscapeQuotes(v) + (['"'] + rest), '"')
              case Got(s, left) => Got(Str(s), left)
              case Error(e, left) => Error(e, left)
  {
    var t := EscapeQuotes(v) + (['"'] + rest);
    assert Shown(v) + rest == ['"'] + t;
    Tail('"', t);
    assert Skip(['"'] + t) == ['"'] + t;
    var i :| 0 <= i < |v| && v[i] == ' ';
    assert !IsNumeric(v[i]);
  }

  // ---- The last option of a command line ----

  /** The length of a text with an escaped quote counted once. */
  function Len(t: string): nat
  {
    if t == [] then 0
    else Len(t[1..]) + if t[0] == '\\' && |t| > 1 && t[1] == '"' then 0 else 1
  }

  lemma {:induction false} LenEscaped(v: string, tail: string)
    ensures Len(EscapeOnto(v, tail)) <= |v| + Len(tail)
  {
    if v != [] {
      LenEscaped(v[1..], tail);
      var more := EscapeOnto(v[1..], tail);
      Tail(v[0], more);
      Tail('\\', ['"'] + more);
      Tail('"', more);
    }
  }

  lemma {:induction false} LenSkip(t: string)
    ensures Len(Skip(t)) <= Len(t)
  {
    if t != [] && IsSpace(t[0]) {
      LenSkip(t[1..]);
    }
  }

  lemma {:induction false} LenPlain(t: string)
    ensures Len(t) <= |t|
  {
    if t != [] {
      LenPlain(t[1..]);
    }
  }

  lemma {:induction false} LenSpan(runes: RuneSet, t: string)
    ensures Len(t) == |Span(runes, t).0| + Len(Span(runes, t).1)
  {
    if t != [] && Test(runes, t[0]) {
      LenSpan(runes, t[1..]);
    }
  }

  /** Quoted text and its closing quote are at most what reading it takes, even when
      the text came out of escaping. */
  lemma {:induction false} LenQuoted(t: string, q: char)
    requires q != '\\'
    ensures var r := Quoted(t, q); r.Got? ==> |r.value| + 1 + Len(r.rest) <= Len(t)
    decreases |t|
  {
    if t != [] {
      if t[0] == '\\' {
        if |t| > 1 {
          assert t[1..][1..] == t[2..];
          LenQuoted(t[2..], q);
        }
      } else if t[0] != q {
        LenQuoted(t[1..], q);
      }
    }
  }

  lemma LenTakeIf(t: string, c: char)
    ensures Len(TakeIf(t, c).1) <= Len(t)
    ensures TakeIf(t, c).0 && c != '\\' ==> Len(TakeIf(t, c).1) + 1 <= Len(t)
  {
    LenSkip(t);
  }

  lemma LenId(t: string, tile: bool)
    ensures Id(t, tile).Got? ==> |Id(t, tile).value| + Len(Id(t, tile).rest) <= Len(t)
    ensures Len(Id(t, tile).rest) <= Len(t)
  {
    LenSkip(t);
    var u := Skip(t);
    if u != [] && IsAlpha(u[0]) {
      LenSpan(IdRunes, u[1..]);
    }
  }

  /** The text in a value that is text. */
  function TextOf(v: Value): nat
  {
    if v.Str? then |v.s| else 0
  }

  lemma {:induction false} LenAny(lib: Numbers, t: string)
    ensures var r := Any(lib, t); r.Got? ==> TextOf(r.value) + Len(r.rest) <= Len(t)
    decreases |t|, 0
  {
    LenSkip(t);
    var u := Skip(t);
    if u != [] {
      if u[0] == '{' {
        LenObject(lib, u[1..]);
      } else if u[0] == '[' {
        LenArray(lib, u[1..], []);
        ArrayIsArr(lib, u[1..], []);
      } else if IsQuote(u[0]) {
        LenQuoted(u[1..], u[0]);
      } else if StartsNumber(u[0]) {
        LenSpan(NumericRunes, u);
      } else {
        LenId(u, false);
      }
    }
  }

  lemma {:induction false} LenObject(lib: Numbers, t: string)
    ensures Object(lib, t).Got? ==> Len(Object(lib, t).rest) <= Len(t)
    decreases |t|, 2
  {
    LenTakeIf(t, '@');
    if !TakeIf(t, '@').0 {
      LenFields(lib, TakeIf(t, '@').1, map[]);
    }
  }

  lemma {:induction false} LenFields(lib: Numbers, t: string, m: map<string, Value>)
    ensures ArgGrammar.Fields(lib, t, m).Got? ==> Len(ArgGrammar.Fields(lib, t, m).rest) <= Len(t)
    decreases |t|, 1
  {
    LenTakeIf(t, '}');
    var (closed, u) := TakeIf(t, '}');
    LenId(u, true);
    var key := Id(u, true);
    if !closed && key.Got? {
      LenSkip(key.rest);
      LenTakeIf(Skip(key.rest), ':');
      var (ok, v) := TakeIf(Skip(key.rest), ':');
      if ok {
        LenAny(lib, v);
        if Any(lib, v).Got? {
          LenFields(lib, Any(lib, v).rest, m[key.value := Any(lib, v).value]);
        }
      }
    }
  }

  lemma {:induction false} LenArray(lib: Numbers, t: string, res: seq<Value>)
    ensures Array(lib, t, res).Got? ==> Len(Array(lib, t, res).rest) <= Len(t)
    decreases |t|, 1
  {
    LenSkip(t);
    var u := Skip(t);
    if u != [] && u[0] != ']' {
      LenAny(lib, u);
      if Any(lib, u).Got? {
        LenArray(lib, Any(lib, u).rest, res + [Any(lib, u).value]);
      }
    }
  }

  lemma LenDashes(t: string)
    ensures Len(SkipDashes(t)) <= Len(t)
  {
    LenTakeIf(t, '-');
    LenTakeIf(TakeIf(t, '-').1, '-');
  }

  /** Whatever the pairs of a text set, a setting that was not there before holds text
      shorter than that, by its key and its sign. */
  lemma {:induction false} PairsTake(lib: Numbers, t: string, m: map<string, Value>, k: string)
    ensures var r := Pairs(lib, t, m);
            r.Got? && k in r.value ==> (k in m && r.value[k] == m[k]) || TextOf(r.value[k]) == 0
                                       || TextOf(r.value[k]) + 2 <= Len(t)
    decreases |t|
  {
    LenDashes(t);
    LenId(SkipDashes(t), true);
    var key := Id(SkipDashes(t), true);
    if key.Got? {
      LenSkip(key.rest);
      LenTakeIf(Skip(key.rest), '=');
      var (ok, v) := TakeIf(Skip(key.rest), '=');
      if ok {
        LenAny(lib, v);
        if Any(lib, v).Got? {
          PairsTake(lib, Any(lib, v).rest, m[key.value := Any(lib, v).value], k);
        }
      }
    }
  }

  /** What is left after reading the value of the last option is too short to hold
      the option's value again. */
  lemma LeftIsShort(lib: Numbers, v: string)
    requires !Survives(lib, v)
    ensures var r := Any(lib, Shown(v) + " "); r.Got? ==> Len(r.rest) <= |v| + 1
  {
    if ' ' in v {
      ShownQuoted(lib, v, " ");
      EscapeIsOnto(v, ['"'] + " ");
      LenEscaped(v, ['"'] + " ");
      LenPlain(['"'] + " ");
      LenQuoted(EscapeOnto(v, ['"'] + " "), '"');
    } else {
      LenPlain(v + " ");
      LenAny(lib, v + " ");
    }
  }

  /** The value read first is not the option's, when that does not survive. */
  lemma FirstIsAnother(lib: Numbers, v: string)
    requires !Survives(lib, v)
    ensures var r := Any(lib, Shown(v) + " "); r.Got? ==> r.value != ValueOf(lib, v)
  {
    var r := Any(lib, Shown(v) + " ");
    if ' ' in v {
      ShownQuoted(lib, v, " ");
      EscapeIsOnto(v, ['"'] + " ");
      BackslashLost(v, " ");
    } else if r.Got? && r.value == Str(v) {
      var t := v + " ";
      var u := Skip(t);
      if u[0] == '[' {
        ArrayIsArr(lib, u[1..], []);
      } else if IsQuote(u[0]) {
        QuotedTakes(u[1..], u[0]);
      } else if !StartsNumber(u[0]) && u[0] != '{' {
        SpanIsPrefix(IdRunes, u[1..]);
        SpanTests(IdRunes, u[1..]);
      }
    }
  }

  lemma {:induction false} QuoteAllAppend(a: seq<string>, b: seq<string>)
    ensures QuoteAll(a + b) == QuoteAll(a) + QuoteAll(b)
  {
    if a == [] {
      assert a + b == b;
    } else {
      QuoteAllAppend(a[1..], b);
      assert (a + b)[1..] == a[1..] + b;
      if IsOption(a[0]) {
        Associates(QuoteArg(a[0]) + " ", QuoteAll(a[1..]), QuoteAll(b));
      }
    }
  }

  lemma {:induction false} WrittenAllAppend(a: seq<Arg>, b: Arg)
    ensures WrittenAll(a + [b]) == WrittenAll(a) + [Written(b)]
  {
    if a == [] {
      assert [b][1..] == [];
    } else {
      WrittenAllAppend(a[1..], b);
      assert (a + [b])[1..] == a[1..] + [b];
    }
  }

  lemma {:induction false} SettingsAppend(lib: Numbers, a: seq<Arg>, key: string, v: string, m: map<string, Value>)
    ensures Settings(lib, a + [Option(key, v)], m) == Settings(lib, a, m)[Tile(key) := ValueOf(lib, v)]
  {
    if a == [] {
      assert [Option(key, v)][1..] == [];
    } else {
      assert (a + [Option(key, v)])[1..] == a[1..] + [Option(key, v)];
      match a[0]
      case Positional(_) => SettingsAppend(lib, a[1..], key, v, m);
      case Option(k, w) => SettingsAppend(lib, a[1..], key, v, m[Tile(k) := ValueOf(lib, w)]);
    }
  }

  /** After arguments that survive, whatever follows them on the line is read with
      their settings. */
  lemma SetAfter(lib: Numbers, args: seq<Arg>, more: seq<string>)
    requires (forall i :: 0 <= i < |args| ==> Sound(lib, args[i])) && more != [] && IsOption(more[0])
    ensures Set(lib, QuoteAll(WrittenAll(args) + more)) == Pairs(lib, QuoteAll(more), Settings(lib, args, map[]))
  {
    var t := QuoteAll(WrittenAll(args) + more);
    QuoteAllAppend(WrittenAll(args), more);
    ReadAll(lib, args, QuoteAll(more), map[]);
    StartsWithDash(lib, args);
    assert QuoteAll(WrittenAll(args)) == [] ==> t == QuoteAll(more);
    SetIsPairs(lib, t);
  }

  lemma LastOption(lib: Numbers, args: seq<Arg>, key: string, v: string)
    requires (forall i :: 0 <= i < |args| ==> Sound(lib, args[i])) && IsName(key)
    ensures var m := Settings(lib, args, map[]);
            Set(lib, QuoteAll(WrittenAll(args + [Option(key, v)]))) ==
              match Any(lib, Shown(v) + " ")
              case Got(val, rest) => Pairs(lib, rest, m[Tile(key) := val])
              case Error(e, rest) => if e == EOF then Got(WithFlag(m, Tile(key)), rest) else Error(e, rest)
  {
    var last := [Written(Option(key, v))];
    assert last[1..] == [];
    QuoteOption(key, v);
    OneLine(key, Shown(v));
    WrittenAllAppend(args, Option(key, v));
    SetAfter(lib, args, last);
    OptionTurn(lib, key, Shown(v) + " ", Settings(lib, args, map[]));
  }

  lemma OneLine(key: string, shown: string)
    ensures ("--" + (key + ("=" + shown))) + " " + "" == "--" + (key + ("=" + (shown + " ")))
  {
  }

  /** Exactly when the last option of a command line is read back, whatever its value,
      after arguments that survive: `Set` returns the settings given, with nothing left
      over, if and only if the value survives.  A lost value is not found again in what
      is left of the text. */
  lemma OptionReadsExactly(lib: Numbers, args: seq<Arg>, key: string, v: string)
    requires (forall i :: 0 <= i < |args| ==> Sound(lib, args[i])) && IsName(key)
    ensures (Set(lib, QuoteAll(WrittenAll(args + [Option(key, v)]))) ==
               Got(Settings(lib, args + [Option(key, v)], map[]), "")) <==> Survives(lib, v)
  {
    SettingsAppend(lib, args, key, v, map[]);
    if Survives(lib, v) {
      forall i | 0 <= i < |args + [Option(key, v)]| ensures Sound(lib, (args + [Option(key, v)])[i]) {
        assert i < |args| ==> Sound(lib, args[i]);
      }
      CommandLineRoundTrip(lib, args + [Option(key, v)]);
    } else {
      NotReadLater(lib, args, key, v);
    }
  }

  lemma NotReadLater(lib: Numbers, args: seq<Arg>, key: string, v: string)
    requires (forall i :: 0 <= i < |args| ==> Sound(lib, args[i])) && IsName(key) && !Survives(lib, v)
    ensures var r := Set(lib, QuoteAll(WrittenAll(args + [Option(key, v)])));
            r.Got? && Tile(key) in r.value ==> r.value[Tile(key)] != ValueOf(lib, v)
  {
    LastOption(lib, args, key, v);
    LeftIsShort(lib, v);
    FirstIsAnother(lib, v);
    var r := Any(lib, Shown(v) + " ");
    if r.Got? {
      PairsTake(lib, r.rest, Settings(lib, args, map[])[Tile(key) := r.value], Tile(key));
    }
  }

  lemma SlashIsError(lib: Numbers, path: string)
    requires path != [] && path[0] == '/'
    ensures Any(lib, path + " ") == Error(Unexpected('/'), path[1..] + " ")
  {
    var t := path + " ";
    assert t[0] == '/' && t[1..] == path[1..] + " ";
  }

  /** A path is such a value: any value that starts with a slash and has no space is
      an error, which loses the whole command line. */
  lemma PathsAreErrors(lib: Numbers, args: seq<Arg>, key: string, path: string)
    requires (forall i :: 0 <= i < |args| ==> Sound(lib, args[i])) && IsName(key)
    requires path != [] && path[0] == '/' && ' ' !in path
    ensures Set(lib, QuoteAll(WrittenAll(args + [Option(key, path)]))) == Error(Unexpected('/'), path[1..] + " ")
  {
    LastOption(lib, args, key, path);
    SlashIsError(lib, path);
  }

  /** `--path=/usr`, which has no backslash, is lost. */
  lemma PathExample(lib: Numbers)
    ensures Set(lib, QuoteAll(["--path=/usr"])) == Error(Unexpected('/'), "usr" + " ")
  {
    PathWritten();
    PathsAreErrors(lib, [], "path", "/usr");
    assert "/usr"[1..] == "usr";
  }

  lemma PathWritten()
    ensures WrittenAll([] + [Option("path", "/usr")]) == ["--path=/usr"]
  {
    var path := Option("path", "/usr");
    assert [] + [path] == [path] && [path][1..] == [];
    assert Written(path) == "--path=/usr";
  }

  // ---- An option quoted as a whole ----

  /** The client quotes all of it: it has a space, and no sign before the first. */
  predicate QuotedWhole(arg: string)
  {
    IsOption(arg) && Index(arg, ' ') >= 0 && !(0 <= Index(arg, '=') < Index(arg, ' '))
  }

  /** `Set` stops in silence at an option quoted as a whole: it returns the settings of
      what comes before it, and that option and all after it are left unread. */
  lemma StopsAtQuotedWhole(lib: Numbers, args: seq<Arg>, arg: string, more: seq<string>)
    requires (forall i :: 0 <= i < |args| ==> Sound(lib, args[i])) && QuotedWhole(arg)
    ensures Set(lib, QuoteAll(WrittenAll(args) + ([arg] + more))) ==
              Got(Settings(lib, args, map[]), QuoteAll([arg] + more))
  {
    SetAfter(lib, args, [arg] + more);
    var t := QuoteAll([arg] + more);
    assert QuoteArg(arg)[0] == '"';
    assert t[0] == '"' && SkipDashes(t) == t;
  }

  /** What the client writes of an option quoted as a whole is that option, as quoted
      text, if and only if it has no backslash. */
  lemma WholeIsQuoted(lib: Numbers, arg: string, rest: string)
    requires QuotedWhole(arg)
    ensures Any(lib, QuoteArg(arg) + rest) == Got(Str(arg), rest) <==> '\\' !in arg
  {
    var t := EscapeQuotes(arg) + (['"'] + rest);
    assert QuoteArg(arg) + rest == ['"'] + t;
    Tail('"', t);
    assert Skip(['"'] + t) == ['"'] + t;
    QuotedExactly(arg, rest);
  }

  // ---- Flags ----

  /** A key with no sign after it is an error, not a flag, and only then is that the
      error. */
  lemma KeyNeedsSign(lib: Numbers, key: string, rest: string)
    requires IsName(key) && (rest == [] || !IsIdChar(rest[0]))
    ensures (Set(lib, "--" + (key + rest)) == Error(Expected('='), Skip(rest))) <==>
              (Skip(rest) == [] || Skip(rest)[0] != '=')
  {
    var t := "--" + (key + rest);
    ReadKey(key, rest);
    SetIsPairs(lib, t);
    SkipTwice(rest);
    var (ok, after) := TakeIf(Skip(rest), '=');
    if ok {
      assert |Pairs(lib, t, map[]).rest| < |Skip(rest)|;
    } else {
      assert Assign(lib, rest, '=') == Error(Expected('='), Skip(rest));
    }
  }

  lemma VerboseExample(lib: Numbers)
    ensures Set(lib, "--" + "verbose") == Error(Expected('='), "")
  {
    KeyNeedsSign(lib, "verbose", "");
    assert "verbose" + "" == "verbose";
  }

  lemma AnyIsNoFlag(lib: Numbers, t: string)
    ensures Any(lib, t).Got? ==> Any(lib, t).value != True
  {
    var u := Skip(t);
    if u != [] && u[0] == '[' {
      ArrayIsArr(lib, u[1..], []);
    }
  }

  /** Pairs that take nothing set nothing. */
  lemma NothingTaken(lib: Numbers, t: string, m: map<string, Value>)
    ensures var r := Pairs(lib, t, m); r.Got? && |r.rest| == |t| ==> r.value == m
  {
  }

  lemma FlagIsTrue(m: map<string, Value>, key: string)
    ensures key in WithFlag(m, key) && WithFlag(m, key)[key] == True
    ensures key != "args" && "args" !in m ==> WithFlag(m, key) == m[key := True]["args" := Arr([Str(key)])]
    ensures key == "args" || "args" in m ==> WithFlag(m, key) == m[key := True]
    ensures forall k :: k in m && k != key ==> k in WithFlag(m, key) && WithFlag(m, key)[k] == m[k]
  {
  }

  /** Exactly when a key becomes a flag: after its sign, the end of input is met in the
      value.  It then reads as true, and the other settings stay (`FlagIsTrue`). */
  lemma FlagExactly(lib: Numbers, key: string, after: string, m: map<string, Value>)
    requires IsName(key)
    ensures (Pairs(lib, "--" + (key + ("=" + after)), m) == Got(WithFlag(m, Tile(key)), Any(lib, after).rest)) <==>
              (Any(lib, after).Error? && Any(lib, after).error == EOF)
  {
    OptionTurn(lib, key, after, m);
    var r := Any(lib, after);
    if r.Got? {
      AnyIsNoFlag(lib, after);
      var given := m[Tile(key) := r.value];
      assert given[Tile(key)] == r.value;
      NothingTaken(lib, r.rest, given);
      FlagIsTrue(m, Tile(key));
    }
  }

  lemma {:induction false} Unterminated(t: string, q: char)
    requires q !in t && '\\' !in t
    ensures Quoted(t, q) == Error(EOF, "")
  {
    if t != [] {
      Unterminated(t[1..], q);
    }
  }

  /** So a quote that is not closed sets a flag, with no error. */
  lemma OpenQuoteIsFlag(lib: Numbers, key: string, text: string, m: map<string, Value>)
    requires IsName(key) && '"' !in text && '\\' !in text
    ensures Pairs(lib, "--" + (key + ("=" + (['"'] + text))), m) == Got(WithFlag(m, Tile(key)), "")
  {
    Tail('"', text);
    assert Skip(['"'] + text) == ['"'] + text;
    Unterminated(text, '"');
    FlagExactly(lib, key, ['"'] + text, m);
  }

  /** And so does an object with a key that is no identifier. */
  lemma BadKeyIsFlag(lib: Numbers, key: string, inside: string, m: map<string, Value>)
    requires IsName(key) && inside != []
    requires !IsSpace(inside[0]) && !IsAlpha(inside[0]) && inside[0] != '}' && inside[0] != '@'
    ensures Pairs(lib, "--" + (key + ("=" + (['{'] + inside))), m) == Got(WithFlag(m, Tile(key)), inside)
  {
    var t := ['{'] + inside;
    Tail('{', inside);
    assert Skip(t) == t && Skip(inside) == inside;
    assert Object(lib, inside) == Error(EOF, inside);
    FlagExactly(lib, key, t, m);
  }
}

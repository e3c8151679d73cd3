/** The argument reader: a cursor over the characters, moved by one and back, and
    the parser written on it.  Every method is proved against `ArgGrammar`. */
module ArgReader {
  import opened Errors
  import opened ArgGrammar

  datatype Result<+T> = Ok(value: T) | Err(error: ParseError)

  /** A method read what the grammar reads: the same result, the same remainder. */
  predicate Reads<T(==)>(spec: Read<T>, r: Result<T>, rest: string)
  {
    && rest == spec.rest
    && match spec
       case Got(value, _) => r == Ok(value)
       case Error(error, _) => r == Err(error)
  }

  class ArgReader {
    const lib: Numbers
    const buf: string
    var pos: nat

    constructor (lib: Numbers, args: string)
      ensures this.lib == lib && buf == args && Valid() && Remains() == args
    {
      this.lib, buf, pos := lib, args, 0;
    }

    /** The cursor is always inside the buffer. */
    predicate Valid()
      reads this
    {
      pos <= |buf|
    }

    function Remains(): string
      reads this
      requires Valid()
    {
      buf[pos..]
    }

    /** The next character; `None` at the end of input. */
    method Read() returns (c: Option<char>)
      requires Valid()
      modifies this
      ensures Valid()
      ensures c == if old(Remains()) == [] then None else Some(old(Remains())[0])
      ensures pos == old(pos) + if c.None? then 0 else 1
    {
      if pos >= |buf| {
        return None;
      }
      pos := pos + 1;
      c := Some(buf[pos - 1]);
    }

    /** Takes back the character read last. */
    method Unread()
      requires Valid() && pos > 0
      modifies this
      ensures Valid() && pos == old(pos) - 1
    {
      pos := pos - 1;
    }

    method Skipspace()
      requires Valid()
      modifies this
      ensures Valid() && Remains() == Skip(old(Remains()))
    {
      while true
        invariant Valid() && Skip(Remains()) == Skip(old(Remains()))
        decreases |buf| - pos
      {
        var ch := Read();
        if ch == None {
          return;
        }
        if !IsSpace(ch.value) {
          Unread();
          return;
        }
      }
    }

    method Significant() returns (c: Option<char>)
      requires Valid()
      modifies this
      ensures Valid()
      ensures var u := Skip(old(Remains()));
              if u == [] then c == None && Remains() == u else c == Some(u[0]) && pos > 0 && buf[pos - 1..] == u
    {
      Skipspace();
      c := Read();
    }

    method TakeIf(c: char) returns (ok: bool)
      requires Valid()
      modifies this
      ensures Valid() && (ok, Remains()) == ArgGrammar.TakeIf(old(Remains()), c)
    {
      if c != ' ' {
        Skipspace();
      }
      var ch := Read();
      if ch == None {
        return false;
      } else if ch.value != c {
        Unread();
        return false;
      }
      return true;
    }

    method TakeAnyIf(runes: RuneSet) returns (c: Option<char>)
      requires Valid()
      modifies this
      ensures Valid()
      ensures var u := old(Remains());
              if u != [] && Test(runes, u[0]) then c == Some(u[0]) && Remains() == u[1..]
              else c == None && Remains() == u
    {
      var ch := Read();
      if ch == None {
        return None;
      } else if !Test(runes, ch.value) {
        Unread();
        return None;
      }
      return ch;
    }

    method TakeAnyN(runes: RuneSet) returns (s: string)
      requires Valid()
      modifies this
      ensures Valid() && (s, Remains()) == Span(runes, old(Remains()))
    {
      s := "";
      assert s + Span(runes, Remains()).0 == Span(runes, Remains()).0;
      while true
        invariant Valid()
        invariant Span(runes, old(Remains())) == (s + Span(runes, Remains()).0, Span(runes, Remains()).1)
        decreases |buf| - pos
      {
        var ch := TakeAnyIf(runes);
        if ch == None {
          assert s + "" == s;
          return;
        }
        assert forall run: string :: s + ([ch.value] + run) == (s + [ch.value]) + run;
        s := s + [ch.value];
      }
    }

    method Quoted(q: char) returns (r: Result<string>)
      requires Valid()
      modifies this
      ensures Valid() && Reads(ArgGrammar.Quoted(old(Remains()), q), r, Remains())
    {
      var result := "";
      var escape := false;
      PrependNothing(ArgGrammar.Quoted(Remains(), q));
      while true
        invariant Valid()
        invariant ArgGrammar.Quoted(old(Remains()), q) ==
                    Prepend(result, if escape then Escaped(Remains(), q) else ArgGrammar.Quoted(Remains(), q))
        decreases |buf| - pos
      {
        ghost var before := Remains();
        var ch := Read();
        if ch == None {
          return Err(EOF);
        }
        assert Remains() == before[1..];
        if escape {
          escape := false;
        } else if ch.value == '\\' {
          escape := true;
          continue;
        } else if ch.value == q {
          assert result + "" == result;
          return Ok(result);
        }
        PrependTwice(result, [ch.value], ArgGrammar.Quoted(Remains(), q));
        result := result + [ch.value];
      }
    }

    /** The turns of `ID`'s loop after the first: identifier characters, tiled. */
    method IdTail(tile: bool) returns (s: string)
      requires Valid()
      modifies this
      ensures Valid() && var (run, rest) := Span(IdRunes, old(Remains()));
              Remains() == rest && s == if tile then Tile(run) else run
    {
      ghost var run := "";
      s := "";
      assert run + Span(IdRunes, Remains()).0 == Span(IdRunes, Remains()).0;
      while true
        invariant Valid()
        invariant Span(IdRunes, old(Remains())) == (run + Span(IdRunes, Remains()).0, Span(IdRunes, Remains()).1)
        invariant s == if tile then Tile(run) else run
        decreases |buf| - pos
      {
        ghost var left := Remains();
        var ch := Read();
        if ch == None {
          assert run + "" == run;
          return;
        }
        if !IsIdChar(ch.value) {
          Unread();
          assert run + "" == run;
          return;
        }
        assert Remains() == left[1..];
        var c := ch.value;
        if tile && c == '-' {
          c := '_';
        }
        TileSnoc(run, ch.value);
        assert forall more: string :: run + ([ch.value] + more) == (run + [ch.value]) + more;
        run := run + [ch.value];
        s := s + [c];
      }
    }

    method ID(tile: bool) returns (r: Result<string>)
      requires Valid()
      modifies this
      ensures Valid() && Reads(Id(old(Remains()), tile), r, Remains())
    {
      var ch := Significant();
      if ch == None {
        return Err(EOF);
      }
      if !IsAlpha(ch.value) {
        Unread();
        return Err(EOF);
      }
      ghost var u := buf[pos - 1..];
      assert Remains() == u[1..];
      var tail := IdTail(tile);
      r := Ok([ch.value] + tail);
    }

    method Number() returns (r: Result<Value>)
      requires Valid()
      modifies this
      ensures Valid() && Reads(ArgGrammar.Number(lib, old(Remains())), r, Remains())
    {
      var result := TakeAnyN(NumericRunes);
      if result == "" {
        return Err(BadNumber);
      }
      match lib.parse(result)
      case Some(x) => return Ok(Num(x));
      case None => return Err(BadNumber);
    }

    method Any() returns (r: Result<Value>)
      requires Valid()
      modifies this
      ensures Valid() && Reads(ArgGrammar.Any(lib, old(Remains())), r, Remains())
      decreases |buf| - pos, 0
    {
      var ch := Significant();
      if ch == None {
        return Err(EOF);
      }
      var c := ch.value;
      if c == '{' {
        var o := Object();
        r := match o case Ok(m) => Ok(Obj(m)) case Err(e) => Err(e);
      } else if c == '[' {
        r := Array();
      } else if IsQuote(c) {
        var s := Quoted(c);
        r := match s case Ok(x) => Ok(Str(x)) case Err(e) => Err(e);
      } else if StartsNumber(c) {
        Unread();
        r := Number();
      } else if IsAlpha(c) {
        Unread();
        var s := ID(false);
        r := match s case Ok(x) => Ok(Str(x)) case Err(e) => Err(e);
      } else {
        r := Err(Unexpected(c));
      }
    }

    method Assign(sign: char) returns (r: Result<Value>)
      requires Valid()
      modifies this
      ensures Valid() && Reads(ArgGrammar.Assign(lib, old(Remains()), sign), r, Remains())
      decreases |buf| - pos, 1
    {
      Skipspace();
      var ok := TakeIf(sign);
      if !ok {
        return Err(Expected(sign));
      }
      r := Any();
    }

    method Object() returns (r: Result<map<string, Value>>)
      requires Valid()
      modifies this
      ensures Valid() && Reads(ArgGrammar.Object(lib, old(Remains())), r, Remains())
      decreases |buf| - pos, 2
    {
      var file := TakeIf('@');
      if file {
        return Err(FileArgument);
      }
      var res: map<string, Value> := map[];
      while true
        invariant Valid() && pos >= old(pos)
        invariant Fields(lib, Remains(), res) == ArgGrammar.Object(lib, old(Remains()))
        decreases |buf| - pos
      {
        var closed := TakeIf('}');
        if closed {
          return Ok(res);
        }
        var key := ID(true);
        if key.Err? {
          return Err(key.error);
        }
        var val := Assign(':');
        if val.Err? {
          return Err(val.error);
        }
        res := res[key.value := val.value];
      }
    }

    method Array() returns (r: Result<Value>)
      requires Valid()
      modifies this
      ensures Valid() && Reads(ArgGrammar.Array(lib, old(Remains()), []), r, Remains())
      decreases |buf| - pos, 1
    {
      var res: seq<Value> := [];
      while true
        invariant Valid() && pos >= old(pos)
        invariant ArgGrammar.Array(lib, Remains(), res) == ArgGrammar.Array(lib, old(Remains()), [])
        decreases |buf| - pos
      {
        var ch := Significant();
        if ch == None {
          return Err(EOF);
        }
        if ch.value == ']' {
          return Ok(Arr(res));
        }
        Unread();
        var val := Any();
        if val.Err? {
          return Err(val.error);
        }
        res := res + [val.value];
      }
    }

    method Set() returns (r: Result<map<string, Value>>)
      requires Valid()
      modifies this
      ensures Valid() && Reads(ArgGrammar.Set(lib, old(Remains())), r, Remains())
    {
      var file := TakeIf('@');
      if file {
        return Err(FileArgument);
      }
      var braced := TakeIf('{');
      if braced {
        r := Object();
        return;
      }
      var res: map<string, Value> := map[];
      while true
        invariant Valid()
        invariant Pairs(lib, Remains(), res) == ArgGrammar.Set(lib, old(Remains()))
        decreases |buf| - pos
      {
        var dash := TakeIf('-');
        if dash {
          dash := TakeIf('-');
        }
        var key := ID(true);
        if key.Err? {
          return Ok(res);
        }
        var val := Assign('=');
        if val.Err? {
          if val.error == EOF {
            res := res[key.value := True];
            if "args" !in res {
              res := res["args" := Arr([Str(key.value)])];
            }
            return Ok(res);
          }
          return Err(val.error);
        }
        res := res[key.value := val.value];
      }
    }
  }
}

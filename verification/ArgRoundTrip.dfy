/** Printing and reading back: every document the canonical printer can print is
    read as its value, up to exactly its end. */
module ArgRoundTrip {
  import opened Errors
  import opened ArgGrammar

  datatype Doc =
    | Text(single: bool, s: string)
    | Name(s: string)
    | Number(r: real)
    | Items(items: seq<Doc>)
    | Fields(fields: seq<Field>)

  datatype Field = Field(key: string, value: Doc)

  // ---- The printer; every function prints in front of what follows ----

  function Quote(single: bool): char { if single then '\'' else '"' }

  /** Text with its quote and backslashes escaped. */
  function TextOnto(q: char, s: string, rest: string): string
  {
    if s == [] then rest
    else if s[0] == q || s[0] == '\\' then ['\\', s[0]] + TextOnto(q, s[1..], rest)
    else [s[0]] + TextOnto(q, s[1..], rest)
  }

  function NameOnto(s: string, rest: string): string
  {
    if s == [] then rest else [s[0]] + NameOnto(s[1..], rest)
  }

  function Onto(lib: Numbers, d: Doc, rest: string): string
    decreases d
  {
    match d
    case Text(single, s) => [Quote(single)] + TextOnto(Quote(single), s, [Quote(single)] + rest)
    case Name(s) => NameOnto(s, rest)
    case Number(r) => NameOnto(lib.show(r), rest)
    case Items(items) => ['['] + ItemsOnto(lib, items, [']'] + rest)
    case Fields(fields) => ['{'] + FieldsOnto(lib, fields, ['}'] + rest)
  }

  /** A space after each item. */
  function ItemsOnto(lib: Numbers, items: seq<Doc>, rest: string): string
    decreases items
  {
    if items == [] then rest
    else Onto(lib, items[0], [' '] + ItemsOnto(lib, items[1..], rest))
  }

  /** A space before each colon, which would be read into the key without it. */
  function FieldsOnto(lib: Numbers, fields: seq<Field>, rest: string): string
    decreases fields
  {
    if fields == [] then rest
    else
      NameOnto(fields[0].key, [' ', ':'] + Onto(lib, fields[0].value, [' '] + FieldsOnto(lib, fields[1..], rest)))
  }

  function Print(lib: Numbers, d: Doc): string { Onto(lib, d, "") }

  // ---- What a document means ----

  function Meaning(d: Doc): Value
    decreases d
  {
    match d
    case Text(_, s) => Str(s)
    case Name(s) => Str(s)
    case Number(r) => Num(r)
    case Items(items) => Arr(Meanings(items))
    case Fields(fields) => Obj(FieldMap(fields, map[]))
  }

  function Meanings(items: seq<Doc>): seq<Value>
    decreases items
  {
    if items == [] then [] else [Meaning(items[0])] + Meanings(items[1..])
  }

  /** Later fields replace earlier ones of the same key. */
  function FieldMap(fields: seq<Field>, m: map<string, Value>): map<string, Value>
    decreases fields
  {
    if fields == [] then m
    else
      FieldMap(fields[1..], m[fields[0].key := Meaning(fields[0].value)])
  }

  predicate IsName(s: string)
  {
    s != [] && IsAlpha(s[0]) && forall i :: 0 <= i < |s| ==> IsIdChar(s[i])
  }

  predicate IsKey(s: string) { IsName(s) && '-' !in s }

  /** The printed number is one numeric token, and the library reads it back. */
  predicate IsNumber(lib: Numbers, r: real)
  {
    var token := lib.show(r);
    && token != [] && StartsNumber(token[0]) && (forall i :: 0 <= i < |token| ==> IsNumeric(token[i]))
    && lib.parse(token) == Some(r)
  }

  predicate Printable(lib: Numbers, d: Doc)
    decreases d
  {
    match d
    case Text(_, _) => true
    case Name(s) => IsName(s)
    case Number(r) => IsNumber(lib, r)
    case Items(items) => forall i :: 0 <= i < |items| ==> Printable(lib, items[i])
    case Fields(fields) => forall i :: 0 <= i < |fields| ==> IsKey(fields[i].key) && Printable(lib, fields[i].value)
  }

  /** What may follow a name or a number. */
  predicate Delimited(rest: string) { rest == [] || (!IsIdChar(rest[0]) && !IsNumeric(rest[0])) }

  // ---- The characters, as they are listed ----

  predicate Between(c: char, lo: char, hi: char) { lo <= c <= hi }

  /** What the sets of characters hold. */
  lemma Characters(c: char)
    ensures IsSpace(c) <==> c in " \t\n\r"
    ensures IsQuote(c) <==> c in "\"'"
    ensures IsNumeric(c) <==> c in "0123456789-+.eExX"
    ensures StartsNumber(c) <==> c in "-+.0123456789"
    ensures IsIdChar(c) <==> Between(c, 'a', 'z') || Between(c, 'A', 'Z') || Between(c, '0', '9') || c in "_-:$"
    ensures IsAlpha(c) <==> Between(c, 'a', 'z') || Between(c, 'A', 'Z')
  {
    Digits(c);
  }

  lemma Digits(c: char)
    ensures IsDigit(c) <==> c in "0123456789"
  {
    if IsDigit(c) {
      assert c == "0123456789"[c as int - '0' as int];
    }
  }

  // ---- Reading back ----

  lemma {:induction false} ReadText(q: char, s: string, rest: string)
    requires q == '"' || q == '\''
    ensures Quoted(TextOnto(q, s, [q] + rest), q) == Got(s, rest)
  {
    if s != [] {
      ReadText(q, s[1..], rest);
      var more := TextOnto(q, s[1..], [q] + rest);
      assert (['\\', s[0]] + more)[1..] == [s[0]] + more;
      assert ([s[0]] + more)[1..] == more;
      assert [s[0]] + s[1..] == s;
    } else {
      assert ([q] + rest)[1..] == rest;
    }
  }

  lemma {:induction false} ReadSpan(runes: RuneSet, s: string, rest: string)
    requires forall i :: 0 <= i < |s| ==> Test(runes, s[i])
    requires rest == [] || !Test(runes, rest[0])
    ensures Span(runes, NameOnto(s, rest)) == (s, rest)
  {
    if s != [] {
      ReadSpan(runes, s[1..], rest);
      assert ([s[0]] + NameOnto(s[1..], rest))[1..] == NameOnto(s[1..], rest);
      assert [s[0]] + s[1..] == s;
    }
  }

  lemma {:induction false} TileKeeps(s: string)
    requires '-' !in s
    ensures Tile(s) == s
  {
    if s != [] {
      TileKeeps(s[1..]);
      assert [s[0]] + s[1..] == s;
    }
  }

  lemma ReadId(s: string, rest: string, tile: bool)
    requires IsName(s) && (rest == [] || !IsIdChar(rest[0]))
    ensures Id(NameOnto(s, rest), tile) == Got(if tile then Tile(s) else s, rest)
  {
    ReadSpan(IdRunes, s[1..], rest);
    var t := NameOnto(s, rest);
    assert t == [s[0]] + NameOnto(s[1..], rest);
    assert Skip(t) == t && t[1..] == NameOnto(s[1..], rest);
    assert s == [s[0]] + s[1..];
  }

  lemma ReadNumber(lib: Numbers, r: real, rest: string)
    requires IsNumber(lib, r) && (rest == [] || !IsNumeric(rest[0]))
    ensures Any(lib, NameOnto(lib.show(r), rest)) == Got(Num(r), rest)
  {
    var token := lib.show(r);
    var t := NameOnto(token, rest);
    ReadSpan(NumericRunes, token, rest);
    assert t[0] == token[0] && Skip(t) == t;
  }

  /** A numeric token is given whole to the number library, whose refusal is the
      reader's error. */
  lemma NumberOrError(lib: Numbers, token: string, rest: string)
    requires token != [] && StartsNumber(token[0]) && (forall i :: 0 <= i < |token| ==> IsNumeric(token[i]))
    requires rest == [] || !IsNumeric(rest[0])
    ensures Any(lib, NameOnto(token, rest)) ==
              match lib.parse(token) case Some(r) => Got(Num(r), rest) case None => Error(BadNumber, rest)
  {
    var t := NameOnto(token, rest);
    ReadSpan(NumericRunes, token, rest);
    assert t[0] == token[0] && Skip(t) == t;
  }

  /** Nothing but these characters starts a value; any other is named in the error. */
  lemma NoValue(lib: Numbers, t: string)
    requires Skip(t) == [] || !(IsAlpha(Skip(t)[0]) || Skip(t)[0] in "{[\"'-+.0123456789")
    ensures Any(lib, t) == if Skip(t) == [] then Error(EOF, "") else Error(Unexpected(Skip(t)[0]), Skip(t)[1..])
  {
    if Skip(t) != [] {
      Characters(Skip(t)[0]);
      assert forall c :: c in "-+.0123456789" ==> c in "{[\"'-+.0123456789";
    }
  }

  /** The first character of a printed document starts a value. */
  predicate StartsValue(t: string)
  {
    t != [] && !IsSpace(t[0]) && t[0] != ']' && t[0] != '}' && t[0] != '@'
  }

  lemma OntoStarts(lib: Numbers, d: Doc, rest: string)
    requires Printable(lib, d)
    ensures StartsValue(Onto(lib, d, rest))
  {
    match d
    case Number(r) => assert Onto(lib, d, rest)[0] == lib.show(r)[0];
    case _ =>
  }

  lemma SkipSpace(t: string)
    ensures Skip([' '] + t) == Skip(t)
  {
    assert ([' '] + t)[1..] == t;
  }

  lemma {:induction false} ReadDoc(lib: Numbers, d: Doc, rest: string)
    requires Printable(lib, d) && (d.Name? || d.Number? ==> Delimited(rest))
    ensures Any(lib, Onto(lib, d, rest)) == Got(Meaning(d), rest)
    decreases d
  {
    var t := Onto(lib, d, rest);
    OntoStarts(lib, d, rest);
    assert Skip(t) == t;
    match d
    case Text(single, s) =>
      ReadText(Quote(single), s, rest);
      assert t[1..] == TextOnto(Quote(single), s, [Quote(single)] + rest);
    case Name(s) =>
      ReadId(s, rest, false);
      assert t[0] == s[0];
    case Number(r) => ReadNumber(lib, r, rest);
    case Items(items) =>
      assert t[1..] == ItemsOnto(lib, items, [']'] + rest);
      ReadItems(lib, items, rest, []);
      assert [] + Meanings(items) == Meanings(items);
    case Fields(fields) =>
      assert t[1..] == FieldsOnto(lib, fields, ['}'] + rest);
      ReadObject(lib, fields, rest);
  }

  lemma ReadItem(lib: Numbers, value: string, v: Value, rest: string, res: seq<Value>)
    requires StartsValue(value) && Any(lib, value) == Got(v, rest)
    ensures Array(lib, value, res) == Array(lib, rest, res + [v])
  {
    assert Skip(value) == value;
  }

  lemma ArraySkip(lib: Numbers, t: string, res: seq<Value>)
    ensures Array(lib, [' '] + t, res) == Array(lib, t, res)
  {
    SkipSpace(t);
  }

  /** One item and the space after it. */
  lemma ReadOneItem(lib: Numbers, d: Doc, more: string, res: seq<Value>)
    requires Printable(lib, d) && Any(lib, Onto(lib, d, [' '] + more)) == Got(Meaning(d), [' '] + more)
    ensures Array(lib, Onto(lib, d, [' '] + more), res) == Array(lib, more, res + [Meaning(d)])
  {
    OntoStarts(lib, d, [' '] + more);
    ReadItem(lib, Onto(lib, d, [' '] + more), Meaning(d), [' '] + more, res);
    ArraySkip(lib, more, res + [Meaning(d)]);
  }

  lemma NoItems(lib: Numbers, rest: string, res: seq<Value>)
    ensures Array(lib, [']'] + rest, res) == Got(Arr(res), rest)
  {
    assert ([']'] + rest)[1..] == rest;
  }

  lemma FirstItem(lib: Numbers, items: seq<Doc>, tail: string, res: seq<Value>)
    requires items != []
    ensures ItemsOnto(lib, items, tail) == Onto(lib, items[0], [' '] + ItemsOnto(lib, items[1..], tail))
    ensures res + Meanings(items) == (res + [Meaning(items[0])]) + Meanings(items[1..])
  {
  }

  lemma {:induction false} ReadItems(lib: Numbers, items: seq<Doc>, rest: string, res: seq<Value>)
    requires forall i :: 0 <= i < |items| ==> Printable(lib, items[i])
    ensures Array(lib, ItemsOnto(lib, items, [']'] + rest), res) == Got(Arr(res + Meanings(items)), rest)
    decreases items, 1
  {
    if items == [] {
      NoItems(lib, rest, res);
      assert res + [] == res;
    } else {
      var more := ItemsOnto(lib, items[1..], [']'] + rest);
      FirstItem(lib, items, [']'] + rest, res);
      ReadDoc(lib, items[0], [' '] + more);
      ReadOneItem(lib, items[0], more, res);
      ReadItems(lib, items[1..], rest, res + [Meaning(items[0])]);
    }
  }

  lemma {:induction false} ReadObject(lib: Numbers, fields: seq<Field>, rest: string)
    requires forall i :: 0 <= i < |fields| ==> IsKey(fields[i].key) && Printable(lib, fields[i].value)
    ensures Object(lib, FieldsOnto(lib, fields, ['}'] + rest)) == Got(FieldMap(fields, map[]), rest)
    decreases fields, 2
  {
    var t := FieldsOnto(lib, fields, ['}'] + rest);
    FieldsThen(lib, fields, ['}'] + rest, map[]);
    assert (['}'] + rest)[1..] == rest;
    if fields != [] {
      assert t[0] == fields[0].key[0];
    }
    assert TakeIf(t, '@') == (false, t);
  }

  /** Printed fields, whatever follows them. */
  lemma {:induction false} FieldsThen(lib: Numbers, fields: seq<Field>, tail: string, m: map<string, Value>)
    requires forall i :: 0 <= i < |fields| ==> IsKey(fields[i].key) && Printable(lib, fields[i].value)
    ensures ArgGrammar.Fields(lib, FieldsOnto(lib, fields, tail), m) ==
              ArgGrammar.Fields(lib, tail, FieldMap(fields, m))
    decreases fields, 1
  {
    if fields != [] {
      var Field(key, d) := fields[0];
      var more := FieldsOnto(lib, fields[1..], tail);
      ReadDoc(lib, d, [' '] + more);
      ReadField(lib, key, Onto(lib, d, [' '] + more), Meaning(d), [' '] + more, m);
      FieldsSkip(lib, more, m[key := Meaning(d)]);
      FieldsThen(lib, fields[1..], tail, m[key := Meaning(d)]);
    }
  }

  lemma FieldsSkip(lib: Numbers, t: string, m: map<string, Value>)
    ensures ArgGrammar.Fields(lib, [' '] + t, m) == ArgGrammar.Fields(lib, t, m)
  {
    SkipSpace(t);
  }

  lemma ReadField(lib: Numbers, key: string, value: string, v: Value, rest: string, m: map<string, Value>)
    requires IsKey(key) && Any(lib, value) == Got(v, rest)
    ensures ArgGrammar.Fields(lib, NameOnto(key, [' ', ':'] + value), m) == ArgGrammar.Fields(lib, rest, m[key := v])
  {
    var after := [' ', ':'] + value;
    var t := NameOnto(key, after);
    ReadId(key, after, true);
    TileKeeps(key);
    assert t[0] == key[0] && TakeIf(t, '}') == (false, t);
    assert after[1..] == [':'] + value && ([':'] + value)[1..] == value;
    assert Skip(after) == [':'] + value;
    assert TakeIf([':'] + value, ':') == (true, value);
  }

  // ---- The statements ----

  lemma {:induction false} NameAppends(s: string, a: string, b: string)
    ensures NameOnto(s, a) + b == NameOnto(s, a + b)
  {
    if s != [] {
      NameAppends(s[1..], a, b);
    }
  }

  lemma {:induction false} TextAppends(q: char, s: string, a: string, b: string)
    ensures TextOnto(q, s, a) + b == TextOnto(q, s, a + b)
  {
    if s != [] {
      TextAppends(q, s[1..], a, b);
    }
  }

  lemma {:induction false} OntoAppends(lib: Numbers, d: Doc, a: string, b: string)
    ensures Onto(lib, d, a) + b == Onto(lib, d, a + b)
    decreases d
  {
    match d
    case Text(single, s) =>
      var q := Quote(single);
      TextAppends(q, s, [q] + a, b);
      ConsAppends(q, a, b);
      ConsAppends(q, TextOnto(q, s, [q] + a), b);
    case Name(s) => NameAppends(s, a, b);
    case Number(r) => NameAppends(lib.show(r), a, b);
    case Items(items) =>
      ItemsAppend(lib, items, [']'] + a, b);
      ConsAppends(']', a, b);
      ConsAppends('[', ItemsOnto(lib, items, [']'] + a), b);
    case Fields(fields) =>
      FieldsAppend(lib, fields, ['}'] + a, b);
      ConsAppends('}', a, b);
      ConsAppends('{', FieldsOnto(lib, fields, ['}'] + a), b);
  }

  lemma ConsAppends(c: char, a: string, b: string)
    ensures ([c] + a) + b == [c] + (a + b)
  {
  }

  lemma {:induction false} ItemsAppend(lib: Numbers, items: seq<Doc>, a: string, b: string)
    ensures ItemsOnto(lib, items, a) + b == ItemsOnto(lib, items, a + b)
    decreases items
  {
    if items != [] {
      var more := ItemsOnto(lib, items[1..], a);
      ItemsAppend(lib, items[1..], a, b);
      OntoAppends(lib, items[0], [' '] + more, b);
      assert ([' '] + more) + b == [' '] + (more + b);
    }
  }

  lemma {:induction false} FieldsAppend(lib: Numbers, fields: seq<Field>, a: string, b: string)
    ensures FieldsOnto(lib, fields, a) + b == FieldsOnto(lib, fields, a + b)
    decreases fields
  {
    if fields != [] {
      var more := FieldsOnto(lib, fields[1..], a);
      var value := Onto(lib, fields[0].value, [' '] + more);
      FieldsAppend(lib, fields[1..], a, b);
      OntoAppends(lib, fields[0].value, [' '] + more, b);
      assert ([' '] + more) + b == [' '] + (more + b);
      NameAppends(fields[0].key, [' ', ':'] + value, b);
      assert ([' ', ':'] + value) + b == [' ', ':'] + (value + b);
    }
  }

  /** A printed document, followed by a delimiter if it is a name or a number, is
      read as its value and reading stops exactly at its end. */
  lemma RoundTrip(lib: Numbers, d: Doc, rest: string)
    requires Printable(lib, d) && (d.Name? || d.Number? ==> Delimited(rest))
    ensures Any(lib, Print(lib, d) + rest) == Got(Meaning(d), rest)
  {
    ReadDoc(lib, d, rest);
    OntoAppends(lib, d, "", rest);
    assert "" + rest == rest;
  }

  lemma {:induction false} SkipAll(spaces: string, t: string)
    requires forall i :: 0 <= i < |spaces| ==> spaces[i] in " \t\n\r"
    ensures Skip(spaces + t) == Skip(t)
  {
    if spaces == [] {
      assert spaces + t == t;
    } else {
      SkipAll(spaces[1..], t);
      assert (spaces + t)[1..] == spaces[1..] + t;
    }
  }

  /** The arguments of a command given as an object in braces, after any spaces: `Set`
      reads exactly its fields, later ones of a key replacing earlier ones, and stops
      exactly at the closing brace, whatever follows. */
  lemma BracedArguments(lib: Numbers, spaces: string, fields: seq<Field>, rest: string)
    requires forall i :: 0 <= i < |spaces| ==> spaces[i] in " \t\n\r"
    requires forall i :: 0 <= i < |fields| ==> IsKey(fields[i].key) && Printable(lib, fields[i].value)
    ensures Set(lib, spaces + (Print(lib, Fields(fields)) + rest)) == Got(FieldMap(fields, map[]), rest)
  {
    OntoAppends(lib, Fields(fields), "", rest);
    assert "" + rest == rest;
    var inside := FieldsOnto(lib, fields, ['}'] + rest);
    var t := ['{'] + inside;
    assert Print(lib, Fields(fields)) + rest == t;
    SkipAll(spaces, t);
    assert Skip(t) == t && t[1..] == inside;
    assert TakeIf(spaces + t, '@') == (false, t) && TakeIf(t, '{') == (true, inside);
    ReadObject(lib, fields, rest);
  }

  /** A value with a printing: numbers the library reads back, and keys the reader
      keeps as they are. */
  predicate HasPrinting(lib: Numbers, v: Value)
    decreases v
  {
    match v
    case Str(_) => true
    case Num(r) => IsNumber(lib, r)
    case True => false
    case Obj(m) => forall k :: k in m ==> IsKey(k) && HasPrinting(lib, m[k])
    case Arr(items) => forall i :: 0 <= i < |items| ==> HasPrinting(lib, items[i])
  }

  lemma {:induction false} FieldMapExtends(fields: seq<Field>, m: map<string, Value>, k: string, d: Doc)
    ensures FieldMap(fields + [Field(k, d)], m) == FieldMap(fields, m)[k := Meaning(d)]
    decreases fields
  {
    if fields == [] {
      assert [Field(k, d)][1..] == [];
    } else {
      FieldMapExtends(fields[1..], m[fields[0].key := Meaning(fields[0].value)], k, d);
      assert (fields + [Field(k, d)])[1..] == fields[1..] + [Field(k, d)];
    }
  }

  lemma {:induction false} DocOf(lib: Numbers, v: Value) returns (d: Doc)
    requires HasPrinting(lib, v)
    ensures Printable(lib, d) && Meaning(d) == v && !d.Name?
    decreases v
  {
    match v
    case Str(s) => d := Text(false, s);
    case Num(r) => d := Number(r);
    case Arr(items) => d := ItemsOf(lib, v, items);
    case Obj(m) => d := FieldsOf(lib, v, m);
  }

  lemma {:induction false} ItemsOf(lib: Numbers, v: Value, items: seq<Value>) returns (d: Doc)
    requires v == Arr(items) && HasPrinting(lib, v)
    ensures Printable(lib, d) && Meaning(d) == v && d.Items?
    decreases v, 0
  {
    var docs: seq<Doc> := [];
    for i := 0 to |items|
      invariant Printable(lib, Items(docs)) && Meanings(docs) == items[..i]
    {
      var doc := DocOf(lib, items[i]);
      MeaningsSnoc(docs, doc);
      docs := docs + [doc];
      assert items[..i + 1] == items[..i] + [items[i]];
    }
    d := Items(docs);
  }

  lemma {:induction false} MeaningsSnoc(items: seq<Doc>, d: Doc)
    ensures Meanings(items + [d]) == Meanings(items) + [Meaning(d)]
    decreases items
  {
    if items == [] {
      assert [d][1..] == [];
    } else {
      MeaningsSnoc(items[1..], d);
      assert (items + [d])[1..] == items[1..] + [d];
    }
  }

  lemma {:induction false} FieldsOf(lib: Numbers, v: Value, m: map<string, Value>) returns (d: Doc)
    requires v == Obj(m) && HasPrinting(lib, v)
    ensures Printable(lib, d) && Meaning(d) == v && d.Fields?
    decreases v, 0
  {
    var fields: seq<Field> := [];
    var left := m.Keys;
    while left != {}
      invariant left <= m.Keys && Printable(lib, Fields(fields))
      invariant FieldMap(fields, map[]) == map k | k in m.Keys - left :: m[k]
    {
      var k :| k in left;
      var doc := DocOf(lib, m[k]);
      FieldMapExtends(fields, map[], k, doc);
      fields := fields + [Field(k, doc)];
      left := left - {k};
    }
    d := Fields(fields);
  }

  /** Every nested value of objects, arrays, strings and numbers has a text that is
      read as that value, with reading stopping at the end of the text. */
  lemma EveryValueReadsBack(lib: Numbers, v: Value, rest: string) returns (text: string)
    requires HasPrinting(lib, v) && (v.Num? ==> Delimited(rest))
    ensures Any(lib, text + rest) == Got(v, rest)
  {
    var d := DocOf(lib, v);
    text := Print(lib, d);
    RoundTrip(lib, d, rest);
  }

  /** Text in which no colon is the next significant character. */
  predicate NoColonNext(t: string) { Skip(t) != [] ==> Skip(t)[0] != ':' }

  /** An identifier that runs into a name or a number stops at the end of it, or at a
      character of it that is neither a space nor a colon. */
  lemma {:induction false} RunsInto(token: string, more: string)
    requires forall i :: 0 <= i < |token| ==> IsIdChar(token[i]) || IsNumeric(token[i])
    requires more != [] && !IsIdChar(more[0]) && NoColonNext(more)
    ensures NoColonNext(Span(IdRunes, NameOnto(token, more)).1)
  {
    if token != [] {
      RunsInto(token[1..], more);
      assert ([token[0]] + NameOnto(token[1..], more))[1..] == NameOnto(token[1..], more);
    }
  }

  lemma {:induction false} KeyRuns(key: string, t: string)
    requires forall i :: 0 <= i < |key| ==> IsIdChar(key[i])
    ensures Span(IdRunes, NameOnto(key, t)).1 == Span(IdRunes, t).1
  {
    if key != [] {
      KeyRuns(key[1..], t);
      assert ([key[0]] + NameOnto(key[1..], t))[1..] == NameOnto(key[1..], t);
    }
  }

  lemma ValueHasNoColon(lib: Numbers, d: Doc, more: string)
    requires Printable(lib, d) && more != [] && !IsIdChar(more[0]) && NoColonNext(more)
    ensures NoColonNext(Span(IdRunes, Onto(lib, d, more)).1)
  {
    match d
    case Name(s) => RunsInto(s, more);
    case Number(r) => RunsInto(lib.show(r), more);
    case _ =>
  }

  /** Without the space before it the colon is read into the key, and what follows it
      with it: the field is rejected for a missing colon. */
  lemma FieldNeedsSpace(lib: Numbers, key: string, d: Doc, more: string, m: map<string, Value>)
    requires IsKey(key) && Printable(lib, d) && more != [] && more[0] == ' ' && NoColonNext(more)
    ensures var r := ArgGrammar.Fields(lib, NameOnto(key + [':'], Onto(lib, d, more)), m);
            r.Error? && r.error == Expected(':')
  {
    var value := Onto(lib, d, more);
    var named := key + [':'];
    var t := NameOnto(named, value);
    ValueHasNoColon(lib, d, more);
    KeyRuns(named[1..], value);
    assert t == [named[0]] + NameOnto(named[1..], value);
    assert t[1..] == NameOnto(named[1..], value);
    assert t[0] == key[0] && TakeIf(t, '}') == (false, t);
    var id := Id(t, true);
    assert id.Got? && id.rest == Span(IdRunes, value).1;
    SkipTwice(id.rest);
    assert Assign(lib, id.rest, ':') == Error(Expected(':'), Skip(id.rest));
  }

  lemma FieldsStart(lib: Numbers, fields: seq<Field>, rest: string)
    requires forall i :: 0 <= i < |fields| ==> IsKey(fields[i].key)
    ensures NoColonNext([' '] + FieldsOnto(lib, fields, ['}'] + rest))
  {
    var t := FieldsOnto(lib, fields, ['}'] + rest);
    assert ([' '] + t)[1..] == t;
    assert t[0] == if fields == [] then '}' else fields[0].key[0];
  }

  /** An object is rejected for a missing colon when one of its fields has no space
      before the colon: for every such field, every value, any good fields before it
      and after it, and whatever follows the object. */
  lemma ColonNeedsSpace(lib: Numbers, before: seq<Field>, key: string, d: Doc, after: seq<Field>, rest: string)
    requires forall i :: 0 <= i < |before| ==> IsKey(before[i].key) && Printable(lib, before[i].value)
    requires IsKey(key) && Printable(lib, d)
    requires forall i :: 0 <= i < |after| ==> IsKey(after[i].key)
    ensures var more := [' '] + FieldsOnto(lib, after, ['}'] + rest);
            var bad := NameOnto(key + [':'], Onto(lib, d, more));
            var r := Any(lib, ['{'] + FieldsOnto(lib, before, bad));
            r.Error? && r.error == Expected(':')
  {
    var more := [' '] + FieldsOnto(lib, after, ['}'] + rest);
    var bad := NameOnto(key + [':'], Onto(lib, d, more));
    var t := FieldsOnto(lib, before, bad);
    FieldsStart(lib, after, rest);
    FieldsThen(lib, before, bad, map[]);
    FieldNeedsSpace(lib, key, d, more, FieldMap(before, map[]));
    BadStarts(lib, before, key, Onto(lib, d, more));
    OpenObject(lib, t);
  }

  lemma BadStarts(lib: Numbers, before: seq<Field>, key: string, value: string)
    requires forall i :: 0 <= i < |before| ==> IsKey(before[i].key)
    requires IsKey(key)
    ensures var t := FieldsOnto(lib, before, NameOnto(key + [':'], value)); t != [] && IsAlpha(t[0])
  {
  }

  /** After the brace, an object that does not begin with a file name. */
  lemma OpenObject(lib: Numbers, t: string)
    requires t != [] && IsAlpha(t[0])
    ensures var r := ArgGrammar.Fields(lib, t, map[]);
            Any(lib, ['{'] + t) == match r case Got(m, rest) => Got(Obj(m), rest) case Error(e, rest) => Error(e, rest)
  {
    assert (['{'] + t)[1..] == t && TakeIf(t, '@') == (false, t);
    assert Object(lib, t) == ArgGrammar.Fields(lib, t, map[]);
  }

  lemma {:induction false} SkipTwice(t: string)
    ensures Skip(Skip(t)) == Skip(t)
  {
  }

  // ---- Whatever is read can be printed ----

  /** Every number the library reads prints as a token it reads back. */
  ghost predicate PrintsItsNumbers(lib: Numbers)
  {
    forall token :: lib.parse(token).Some? ==> IsNumber(lib, lib.parse(token).value)
  }

  lemma {:induction false} SpanTests(runes: RuneSet, t: string)
    ensures forall i :: 0 <= i < |Span(runes, t).0| ==> Test(runes, Span(runes, t).0[i])
  {
    if t != [] && Test(runes, t[0]) {
      SpanTests(runes, t[1..]);
    }
  }

  lemma {:induction false} TileIsKey(s: string)
    requires forall i :: 0 <= i < |s| ==> IsIdChar(s[i])
    ensures '-' !in Tile(s) && forall i :: 0 <= i < |s| ==> IsIdChar(Tile(s)[i])
  {
    if s != [] {
      TileIsKey(s[1..]);
    }
  }

  lemma IdIsKey(t: string)
    ensures Id(t, true).Got? ==> IsKey(Id(t, true).value)
  {
    var u := Skip(t);
    if u != [] && IsAlpha(u[0]) {
      SpanTests(IdRunes, u[1..]);
      TileIsKey(Span(IdRunes, u[1..]).0);
    }
  }

  lemma {:induction false} ReadHasPrinting(lib: Numbers, t: string)
    requires PrintsItsNumbers(lib)
    ensures Any(lib, t).Got? ==> HasPrinting(lib, Any(lib, t).value)
    decreases |t|, 0
  {
    var u := Skip(t);
    if u != [] {
      if u[0] == '{' {
        ObjectHasPrinting(lib, u[1..]);
      } else if u[0] == '[' {
        ArrayHasPrinting(lib, u[1..], []);
      }
    }
  }

  lemma {:induction false} ObjectHasPrinting(lib: Numbers, t: string)
    requires PrintsItsNumbers(lib)
    ensures Object(lib, t).Got? ==> HasPrinting(lib, Obj(Object(lib, t).value))
    decreases |t|, 2
  {
    var (file, u) := TakeIf(t, '@');
    if !file {
      FieldsHavePrinting(lib, u, map[]);
    }
  }

  lemma {:induction false} FieldsHavePrinting(lib: Numbers, t: string, m: map<string, Value>)
    requires PrintsItsNumbers(lib) && HasPrinting(lib, Obj(m))
    ensures ArgGrammar.Fields(lib, t, m).Got? ==> HasPrinting(lib, Obj(ArgGrammar.Fields(lib, t, m).value))
    decreases |t|, 1
  {
    var (closed, u) := TakeIf(t, '}');
    var key := Id(u, true);
    if !closed && key.Got? {
      IdIsKey(u);
      var (ok, v) := TakeIf(Skip(key.rest), ':');
      if ok {
        ReadHasPrinting(lib, v);
        var val := Any(lib, v);
        if val.Got? {
          FieldsHavePrinting(lib, val.rest, m[key.value := val.value]);
        }
      }
    }
  }

  lemma {:induction false} ArrayHasPrinting(lib: Numbers, t: string, res: seq<Value>)
    requires PrintsItsNumbers(lib) && HasPrinting(lib, Arr(res))
    ensures Array(lib, t, res).Got? ==> HasPrinting(lib, Array(lib, t, res).value)
    decreases |t|, 1
  {
    var u := Skip(t);
    if u != [] && u[0] != ']' {
      ReadHasPrinting(lib, u);
      var val := Any(lib, u);
      if val.Got? {
        ArrayHasPrinting(lib, val.rest, res + [val.value]);
      }
    }
  }

  /** Reading is idempotent through printing: whatever text was read, the value has
      a canonical text that reads as the same value. */
  lemma ReadPrintRead(lib: Numbers, t: string) returns (text: string)
    requires PrintsItsNumbers(lib) && Any(lib, t).Got?
    ensures Any(lib, text) == Got(Any(lib, t).value, "")
  {
    ReadHasPrinting(lib, t);
    text := EveryValueReadsBack(lib, Any(lib, t).value, "");
    assert text + "" == text;
  }
}

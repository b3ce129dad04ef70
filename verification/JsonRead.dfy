/** Canonical text is JSON: a reader of section 2 of RFC 8259 gets the content back. */
module JsonRead {
  import opened Sequences
  import opened Wrappers
  import opened JsonText

  // ----- a reader -----

  function Unhex(c: char): int {
    if '0' <= c <= '9' then c as int - '0' as int
    else if 'a' <= c <= 'f' then c as int - 'a' as int + 10
    else if 'A' <= c <= 'F' then c as int - 'A' as int + 10
    else -1
  }

  /** What a one-letter escape stands for. */
  function Unescape(c: char): Option<char> {
    if c == '\"' || c == '\\' || c == '/' then Some(c)
    else if c == 'b' then Some(8 as char)
    else if c == 't' then Some(9 as char)
    else if c == 'n' then Some(10 as char)
    else if c == 'f' then Some(12 as char)
    else if c == 'r' then Some(13 as char)
    else None
  }

  function Behind(c: char, r: Option<(string, string)>): Option<(string, string)> {
    match r case None => None case Some((s, rest)) => Some(([c] + s, rest))
  }

  /** The characters of a string up to its closing quote, and what follows. */
  function ReadChars(t: string): (r: Option<(string, string)>)
    ensures r.Some? ==> |r.value.1| < |t|
    decreases |t|
  {
    if t == "" || t[0] < ' ' then None
    else if t[0] == '\"' then Some(("", t[1..]))
    else if t[0] != '\\' then Behind(t[0], ReadChars(t[1..]))
    else if |t| < 2 then None
    else if t[1] != 'u' then
      match Unescape(t[1])
      case None => None
      case Some(c) => Behind(c, ReadChars(t[2..]))
    else if |t| < 6 || Unhex(t[2]) < 0 || Unhex(t[3]) < 0 || Unhex(t[4]) < 0 || Unhex(t[5]) < 0 then None
    else
      var code := 0x1000 * Unhex(t[2]) + 0x100 * Unhex(t[3]) + 0x10 * Unhex(t[4]) + Unhex(t[5]);
      if 0xD800 <= code < 0xE000 then None else Behind(code as char, ReadChars(t[6..]))
  }

  function NumberLength(t: string): (n: nat)
    ensures n <= |t|
  {
    if t == "" || !NumberChar(t[0]) then 0 else 1 + NumberLength(t[1..])
  }

  /** One value at the front of a text, and what follows it. */
  function ReadValue(t: string): (r: Option<(Json, string)>)
    ensures r.Some? ==> |r.value.1| < |t|
    decreases |t|, 0
  {
    if t == "" then None
    else if "null" <= t then Some((Null, t[4..]))
    else if "true" <= t then Some((Bool(true), t[4..]))
    else if "false" <= t then Some((Bool(false), t[5..]))
    else if t[0] == '\"' then
      match ReadChars(t[1..])
      case None => None
      case Some((s, rest)) => Some((Text(s), rest))
    else if t[0] == '[' then
      if |t| > 1 && t[1] == ']' then Some((Array([]), t[2..]))
      else
        match ReadItems(t[1..])
        case None => None
        case Some((items, rest)) => Some((Array(items), rest))
    else if t[0] == '{' then
      if |t| > 1 && t[1] == '}' then Some((Object([]), t[2..]))
      else
        match ReadFields(t[1..])
        case None => None
        case Some((fields, rest)) => Some((Object(fields), rest))
    else
      var n := NumberLength(t);
      if n == 0 then None else Some((Number(t[..n]), t[n..]))
  }

  function ReadItems(t: string): (r: Option<(seq<Json>, string)>)
    ensures r.Some? ==> |r.value.1| < |t|
    decreases |t|, 1
  {
    match ReadValue(t)
    case None => None
    case Some((v, rest)) =>
      if rest == "" then None
      else if rest[0] == ']' then Some(([v], rest[1..]))
      else if rest[0] != ',' then None
      else
        match ReadItems(rest[1..])
        case None => None
        case Some((items, end)) => Some(([v] + items, end))
  }

  function ReadFields(t: string): (r: Option<(seq<Field>, string)>)
    ensures r.Some? ==> |r.value.1| < |t|
    decreases |t|, 1
  {
    if t == "" || t[0] != '\"' then None
    else
      match ReadChars(t[1..])
      case None => None
      case Some((key, colon)) =>
        if colon == "" || colon[0] != ':' then None
        else
          match ReadValue(colon[1..])
          case None => None
          case Some((v, rest)) =>
            if rest == "" then None
            else if rest[0] == '}' then Some(([Field(key, v)], rest[1..]))
            else if rest[0] != ',' then None
            else
              match ReadFields(rest[1..])
              case None => None
              case Some((fields, end)) => Some(([Field(key, v)] + fields, end))
  }

  // ----- strings -----

  lemma HexRead(c: char)
    requires c < ' '
    ensures Unhex(HEX[c as int / 16]) == c as int / 16 && Unhex(HEX[c as int % 16]) == c as int % 16
  {
    assert Unhex(HEX[0]) == 0 && Unhex(HEX[1]) == 1 && Unhex(HEX[2]) == 2 && Unhex(HEX[3]) == 3;
    assert Unhex(HEX[4]) == 4 && Unhex(HEX[5]) == 5 && Unhex(HEX[6]) == 6 && Unhex(HEX[7]) == 7;
    assert Unhex(HEX[8]) == 8 && Unhex(HEX[9]) == 9 && Unhex(HEX[10]) == 10 && Unhex(HEX[11]) == 11;
    assert Unhex(HEX[12]) == 12 && Unhex(HEX[13]) == 13 && Unhex(HEX[14]) == 14 && Unhex(HEX[15]) == 15;
  }

  lemma ZeroRead()
    ensures Unhex('0') == 0
  {
  }

  lemma ControlRead(c: char, t: string)
    requires c < ' ' && |Escape(c)| == 6
    ensures ReadChars(Escape(c) + t) == Behind(c, ReadChars(t))
  {
    var s := Escape(c) + t;
    HexRead(c);
    ZeroRead();
    assert s[6..] == t && s[0] == '\\' && s[1] == 'u' && s[2] == '0' && s[3] == '0';
    assert s[4] == HEX[c as int / 16] && s[5] == HEX[c as int % 16];
    hide Unhex, Escape;
  }

  lemma NamedRead(c: char, t: string)
    requires |Escape(c)| == 2
    ensures ReadChars(Escape(c) + t) == Behind(c, ReadChars(t))
  {
    var e := Escape(c);
    var s := e + t;
    assert s[2..] == t && s[0] == '\\' && s[1] == e[1];
    assert e[1] != 'u' && Unescape(e[1]) == Some(c);
    hide Escape, Unescape, Unhex;
  }

  lemma PlainRead(c: char, t: string)
    requires c >= ' ' && c != '\"' && c != '\\'
    ensures ReadChars([c] + t) == Behind(c, ReadChars(t))
  {
    assert ([c] + t)[1..] == t;
    hide Unhex, Unescape;
  }

  /** A written character is read back. */
  lemma CharRead(c: char, t: string)
    ensures ReadChars(Escape(c) + t) == Behind(c, ReadChars(t))
  {
    hide ReadChars;
    if |Escape(c)| == 6 {
      ControlRead(c, t);
    } else if |Escape(c)| == 2 {
      NamedRead(c, t);
    } else {
      PlainRead(c, t);
    }
  }

  lemma {:induction false} CharsRead(s: string, t: string)
    ensures ReadChars(EscapeAll(s) + ['\"'] + t) == Some((s, t))
    decreases |s|
  {
    if s == "" {
      assert (EscapeAll(s) + ['\"'] + t)[1..] == t;
    } else {
      CharsRead(s[1..], t);
      CharRead(s[0], EscapeAll(s[1..]) + ['\"'] + t);
      assert EscapeAll(s) + ['\"'] + t == Escape(s[0]) + (EscapeAll(s[1..]) + ['\"'] + t);
      assert [s[0]] + s[1..] == s;
    }
  }

  lemma QuoteRead(s: string, t: string)
    ensures Quote(s) + t != "" && (Quote(s) + t)[0] == '\"' && ReadChars((Quote(s) + t)[1..]) == Some((s, t))
  {
    CharsRead(s, t);
    assert (Quote(s) + t)[1..] == EscapeAll(s) + ['\"'] + t;
  }

  // ----- values -----

  /** A number could not go on here. */
  predicate Stops(rest: string) {
    rest == "" || !NumberChar(rest[0])
  }

  /** `t` reads as `v`, whatever follows. */
  ghost predicate Spells(t: string, v: Json) {
    forall rest: string :: Stops(rest) ==> ReadValue(t + rest) == Some((v, rest))
  }

  lemma {:induction false} NumberRead(text: string, rest: string)
    requires Stops(rest) && forall i :: 0 <= i < |text| ==> NumberChar(text[i])
    ensures NumberLength(text + rest) == |text|
    decreases |text|
  {
    if text == "" {
      assert text + rest == rest;
    } else {
      NumberRead(text[1..], rest);
      assert (text + rest)[1..] == text[1..] + rest;
    }
  }

  lemma NumberSpells(text: string)
    requires NumberText(text)
    ensures Spells(text, Number(text))
  {
    forall rest: string | Stops(rest) ensures ReadValue(text + rest) == Some((Number(text), rest)) {
      NumberRead(text, rest);
      assert (text + rest)[0] == text[0] && NumberChar(text[0]);
      assert (text + rest)[..|text|] == text && (text + rest)[|text|..] == rest;
    }
  }

  lemma TextSpells(s: string)
    ensures Spells(Quote(s), Text(s))
  {
    forall rest: string | Stops(rest) ensures ReadValue(Quote(s) + rest) == Some((Text(s), rest)) {
      QuoteRead(s, rest);
    }
  }

  lemma WordSpells()
    ensures Spells("null", Null) && Spells("true", Bool(true)) && Spells("false", Bool(false))
  {
    forall rest: string
      ensures ReadValue("null" + rest) == Some((Null, rest))
      ensures ReadValue("true" + rest) == Some((Bool(true), rest))
      ensures ReadValue("false" + rest) == Some((Bool(false), rest))
    {
      assert ("null" + rest)[4..] == rest && ("true" + rest)[4..] == rest && ("false" + rest)[5..] == rest;
      assert ("true" + rest)[0] == 't' && ("false" + rest)[0] == 'f' && ("null" + rest)[0] == 'n';
    }
  }

  ghost predicate AllSpell(texts: seq<string>, values: seq<Json>) {
    |texts| == |values| && forall i :: 0 <= i < |texts| ==> Spells(texts[i], values[i])
  }

  lemma SpelledRead(t: string, v: Json, rest: string)
    requires Spells(t, v) && Stops(rest)
    ensures ReadValue(t + rest) == Some((v, rest))
  {
  }

  /** What an item and the separator behind it mean. */
  lemma ItemsStep(s: string, v: Json, tail: string)
    requires ReadValue(s) == Some((v, tail)) && tail != "" && (tail[0] == ',' || tail[0] == ']')
    ensures ReadItems(s)
         == if tail[0] == ']' then Some(([v], tail[1..]))
            else match ReadItems(tail[1..]) case None => None case Some((items, end)) => Some(([v] + items, end))
  {
    hide ReadValue;
  }

  lemma Separated(t: string, c: char, after: string)
    ensures var tail := [c] + after; tail[0] == c && tail[1..] == after && t + [c] + after == t + tail
  {
  }

  lemma {:induction false} ItemsRead(texts: seq<string>, values: seq<Json>, rest: string)
    requires AllSpell(texts, values) && texts != []
    ensures ReadItems(Join(texts) + [']'] + rest) == Some((values, rest))
    decreases |texts|
  {
    hide ReadItems, ReadValue, Spells;
    var t, v := texts[0], values[0];
    if |texts| == 1 {
      Separated(t, ']', rest);
      SpelledRead(t, v, [']'] + rest);
      ItemsStep(t + ([']'] + rest), v, [']'] + rest);
      assert values == [v];
    } else {
      var after := Join(texts[1..]) + [']'] + rest;
      ItemsRead(texts[1..], values[1..], rest);
      JoinedBefore(texts, ']', rest);
      Separated(t, ',', after);
      SpelledRead(t, v, [','] + after);
      ItemsStep(t + ([','] + after), v, [','] + after);
      assert values == [v] + values[1..];
    }
  }

  lemma JoinedBefore(texts: seq<string>, close: char, rest: string)
    requires |texts| > 1
    ensures Join(texts) + [close] + rest == texts[0] + ([','] + (Join(texts[1..]) + [close] + rest))
  {
    var t, comma, more := texts[0], [','], Join(texts[1..]);
    assert Join(texts) == t + comma + more;
    hide Join;
    AppendAssociates(t, comma, more);
    AppendAssociates(t, comma + more, [close]);
    AppendAssociates(t, comma + more + [close], rest);
    AppendAssociates(comma, more, [close]);
    AppendAssociates(comma, more + [close], rest);
  }

  /** The members are the fields, key by key, each text spelling its value. */
  ghost predicate Aligned(members: seq<Member>, fields: seq<Field>) {
    && |members| == |fields|
    && forall i :: 0 <= i < |members| ==> members[i].0 == fields[i].key && Spells(members[i].1, fields[i].value)
  }

  lemma {:induction false} FieldsRead(members: seq<Member>, fields: seq<Field>, rest: string)
    requires Aligned(members, fields) && members != []
    ensures ReadFields(Join(SpellAll(members)) + ['}'] + rest) == Some((fields, rest))
    decreases |members|
  {
    hide ReadFields, ReadValue, Spells, Spell;
    var m, f, texts := members[0], fields[0], SpellAll(members);
    if |members| == 1 {
      Separated(texts[0], '}', rest);
      OneFieldRead(m, f, ['}'] + rest);
      assert fields == [f];
    } else {
      assert texts[1..] == SpellAll(members[1..]);
      var after := Join(texts[1..]) + ['}'] + rest;
      FieldsRead(members[1..], fields[1..], rest);
      JoinedBefore(texts, '}', rest);
      Separated(texts[0], ',', after);
      OneFieldRead(m, f, [','] + after);
      assert fields == [f] + fields[1..];
    }
  }

  lemma FieldsStep(s: string, key: string, colon: string, v: Json, tail: string)
    requires s != "" && s[0] == '\"' && ReadChars(s[1..]) == Some((key, colon))
    requires colon != "" && colon[0] == ':' && ReadValue(colon[1..]) == Some((v, tail))
    requires tail != "" && (tail[0] == ',' || tail[0] == '}')
    ensures ReadFields(s)
         == if tail[0] == '}' then Some(([Field(key, v)], tail[1..]))
            else match ReadFields(tail[1..])
                 case None => None
                 case Some((fields, end)) => Some(([Field(key, v)] + fields, end))
  {
    hide ReadValue, ReadChars;
  }

  lemma OneFieldRead(m: Member, f: Field, tail: string)
    requires m.0 == f.key && Spells(m.1, f.value) && tail != "" && (tail[0] == ',' || tail[0] == '}')
    ensures ReadFields(Spell(m) + tail)
         == if tail[0] == '}' then Some(([f], tail[1..]))
            else match ReadFields(tail[1..]) case None => None case Some((fields, end)) => Some(([f] + fields, end))
  {
    hide ReadFields, ReadValue, ReadChars, Spells, Quote;
    var value := m.1 + tail;
    Separated(Quote(m.0), ':', value);
    assert Spell(m) + tail == Quote(m.0) + ([':'] + value);
    QuoteRead(m.0, [':'] + value);
    SpelledRead(m.1, f.value, tail);
    FieldsStep(Spell(m) + tail, m.0, [':'] + value, f.value, tail);
  }

  lemma ArrayOpens(s: string)
    requires s != "" && s[0] == '['
    ensures ReadValue(s)
         == if |s| > 1 && s[1] == ']' then Some((Array([]), s[2..]))
            else match ReadItems(s[1..]) case None => None case Some((items, rest)) => Some((Array(items), rest))
  {
    hide ReadItems;
  }

  lemma ObjectOpens(s: string)
    requires s != "" && s[0] == '{'
    ensures ReadValue(s)
         == if |s| > 1 && s[1] == '}' then Some((Object([]), s[2..]))
            else match ReadFields(s[1..]) case None => None case Some((fields, rest)) => Some((Object(fields), rest))
  {
    hide ReadFields;
  }

  lemma Enclosed(open: char, body: string, close: char, rest: string)
    ensures var s := [open] + body + [close] + rest;
            && s[0] == open && s[1..] == body + [close] + rest
            && (if body == "" then s[1] == close && s[2..] == rest else s[1] == body[0])
  {
  }

  lemma FirstOfJoin(texts: seq<string>)
    requires texts != [] && texts[0] != ""
    ensures Join(texts) != "" && Join(texts)[0] == texts[0][0]
  {
  }

  lemma ArrayRead(texts: seq<string>, values: seq<Json>, rest: string)
    requires AllSpell(texts, values) && forall i :: 0 <= i < |texts| ==> texts[i] != "" && texts[i][0] != ']'
    ensures ReadValue(['['] + Join(texts) + [']'] + rest) == Some((Array(values), rest))
  {
    hide ReadValue, ReadItems, Spells;
    Enclosed('[', Join(texts), ']', rest);
    ArrayOpens(['['] + Join(texts) + [']'] + rest);
    if texts != [] {
      ItemsRead(texts, values, rest);
      FirstOfJoin(texts);
    }
  }

  lemma ArraySpells(texts: seq<string>, values: seq<Json>)
    requires AllSpell(texts, values) && forall i :: 0 <= i < |texts| ==> texts[i] != "" && texts[i][0] != ']'
    ensures Spells(['['] + Join(texts) + [']'], Array(values))
  {
    hide ReadValue, AllSpell;
    forall rest: string ensures ReadValue(['['] + Join(texts) + [']'] + rest) == Some((Array(values), rest)) {
      ArrayRead(texts, values, rest);
    }
  }

  lemma ObjectRead(members: seq<Member>, fields: seq<Field>, rest: string)
    requires Aligned(members, fields)
    ensures ReadValue(['{'] + Join(SpellAll(members)) + ['}'] + rest) == Some((Object(fields), rest))
  {
    var texts := SpellAll(members);
    assert members != [] ==> texts[0] != "" && texts[0][0] == '\"';
    hide ReadValue, ReadFields, Spells, Spell;
    Enclosed('{', Join(texts), '}', rest);
    ObjectOpens(['{'] + Join(texts) + ['}'] + rest);
    if members != [] {
      FieldsRead(members, fields, rest);
      FirstOfJoin(texts);
    }
  }

  lemma ObjectSpells(members: seq<Member>, fields: seq<Field>)
    requires Aligned(members, fields)
    ensures Spells(['{'] + Join(SpellAll(members)) + ['}'], Object(fields))
  {
    hide ReadValue, Aligned;
    forall rest: string
      ensures ReadValue(['{'] + Join(SpellAll(members)) + ['}'] + rest) == Some((Object(fields), rest))
    {
      ObjectRead(members, fields, rest);
    }
  }

  // ----- the content -----

  /** No array has an undefined item. */
  predicate Pure(v: Json) {
    match v
    case Array(items) => forall i :: 0 <= i < |items| ==> !items[i].Undefined? && Pure(items[i])
    case Object(fields) => forall i :: 0 <= i < |fields| ==> Pure(fields[i].value)
    case _ => true
  }

  function InsertField(f: Field, sorted: seq<Field>): seq<Field> {
    if sorted == [] || Before(f.key, sorted[0].key) then [f] + sorted
    else [sorted[0]] + InsertField(f, sorted[1..])
  }

  function SortFields(fields: seq<Field>): seq<Field> {
    if fields == [] then [] else InsertField(fields[0], SortFields(fields[1..]))
  }

  /** The same value without its undefined fields, and with its fields in the order of their keys. */
  function Content(v: Json): Json
    decreases v
  {
    match v
    case Array(items) => Array(ContentItems(items))
    case Object(fields) => Object(SortFields(ContentFields(fields)))
    case _ => v
  }

  function ContentItems(items: seq<Json>): (r: seq<Json>)
    ensures |r| == |items| && forall i :: 0 <= i < |items| ==> r[i] == Content(items[i])
    decreases items
  {
    if items == [] then [] else [Content(items[0])] + ContentItems(items[1..])
  }

  function ContentFields(fields: seq<Field>): seq<Field>
    decreases fields
  {
    if fields == [] then []
    else
      var f := fields[0];
      (if f.value.Undefined? then [] else [Field(f.key, Content(f.value))]) + ContentFields(fields[1..])
  }

  lemma {:induction false} InsertAligned(m: Member, f: Field, members: seq<Member>, fields: seq<Field>)
    requires m.0 == f.key && Spells(m.1, f.value) && Aligned(members, fields)
    ensures Aligned(Insert(m, members), InsertField(f, fields))
    decreases |members|
  {
    hide Spells;
    if members == [] || Before(m.0, members[0].0) {
    } else {
      InsertAligned(m, f, members[1..], fields[1..]);
    }
  }

  lemma {:induction false} SortAligned(members: seq<Member>, fields: seq<Field>)
    requires Aligned(members, fields)
    ensures Aligned(Sort(members), SortFields(fields))
    decreases |members|
  {
    hide Spells;
    if members == [] {
    } else {
      SortAligned(members[1..], fields[1..]);
      InsertAligned(members[0], fields[0], Sort(members[1..]), SortFields(fields[1..]));
    }
  }

  lemma CanonOpens(v: Json)
    requires Writable(v)
    ensures Canon(v) != "" && Canon(v)[0] != ']'
  {
  }

  /** Every written value reads back as its content. */
  lemma {:induction false} CanonSpells(v: Json)
    requires Writable(v) && Pure(v)
    ensures Spells(Canon(v), Content(v))
    decreases v
  {
    match v
    case Number(text) => NumberSpells(text);
    case Text(s) => TextSpells(s);
    case Array(items) =>
      var texts, values := CanonItems(items), ContentItems(items);
      forall i | 0 <= i < |items| ensures Spells(texts[i], values[i]) && texts[i] != "" && texts[i][0] != ']' {
        CanonSpells(items[i]);
        CanonOpens(items[i]);
      }
      hide Spells;
      ArraySpells(texts, values);
    case Object(fields) =>
      MembersAligned(fields);
      hide Spells;
      SortAligned(Members(fields), ContentFields(fields));
      ObjectSpells(Sort(Members(fields)), SortFields(ContentFields(fields)));
    case _ => WordSpells();
  }

  lemma {:induction false} MembersAligned(fields: seq<Field>)
    requires forall i :: 0 <= i < |fields| ==>
               (fields[i].value.Undefined? || Writable(fields[i].value)) && Pure(fields[i].value)
    ensures Aligned(Members(fields), ContentFields(fields))
    decreases fields
  {
    if fields == [] {
    } else {
      var f := fields[0];
      if !f.value.Undefined? {
        CanonSpells(f.value);
      }
      hide Spells;
      MembersAligned(fields[1..]);
    }
  }

  /** Reading a canonical text gives back the content it was written from, and nothing is left over. */
  lemma TextReadBack(v: Json)
    requires Writable(v) && Pure(v)
    ensures Canonicalize(v).Some? && ReadValue(Canonicalize(v).value) == Some((Content(v), ""))
  {
    WritableIsFinite(v);
    CanonSpells(v);
    SpelledRead(Canon(v), Content(v), "");
    assert Canon(v) + "" == Canon(v);
  }

  // ----- what is refused -----

  /** What stands in a value at the end of a path of positions. */
  function Found(v: Json, path: seq<nat>): Option<Json>
    decreases |path|
  {
    if path == [] then Some(v)
    else
      match v
      case Array(items) => if path[0] < |items| then Found(items[path[0]], path[1..]) else None
      case Object(fields) => if path[0] < |fields| then Found(fields[path[0]].value, path[1..]) else None
      case _ => None
  }

  /** There is no text exactly if somewhere in the value stands a number that JSON cannot write. */
  lemma RefusedExactly(v: Json)
    ensures Canonicalize(v).None? <==> exists path :: Found(v, path) == Some(NotFinite)
  {
    if path :| Found(v, path) == Some(NotFinite) {
      FoundRefuses(v, path);
    }
    if HasNotFinite(v) {
      var path := PathTo(v);
    }
  }

  lemma {:induction false} FoundRefuses(v: Json, path: seq<nat>)
    requires Found(v, path) == Some(NotFinite)
    ensures HasNotFinite(v)
    decreases |path|
  {
    if path != [] {
      match v
      case Array(items) => FoundRefuses(items[path[0]], path[1..]);
      case Object(fields) => FoundRefuses(fields[path[0]].value, path[1..]);
    }
  }

  lemma {:induction false} PathTo(v: Json) returns (path: seq<nat>)
    requires HasNotFinite(v)
    ensures Found(v, path) == Some(NotFinite)
    decreases v
  {
    match v
    case NotFinite => path := [];
    case Array(items) =>
      var i: nat :| i < |items| && HasNotFinite(items[i]);
      var rest := PathTo(items[i]);
      path := [i] + rest;
    case Object(fields) =>
      var i: nat :| i < |fields| && HasNotFinite(fields[i].value);
      var rest := PathTo(fields[i].value);
      path := [i] + rest;
  }

  // ----- the order of the keys -----

  /** `a` comes first: it is a beginning of `b`, or has the lower code unit where they first differ. */
  ghost predicate Lower(a: string, b: string) {
    exists n: nat :: LowerAt(a, b, n)
  }

  predicate LowerAt(a: string, b: string, n: nat) {
    n <= |a| && n < |b| && a[..n] == b[..n] && (n < |a| ==> a[n] < b[n])
  }

  lemma LowerCons(a: string, b: string, n: nat)
    requires a != "" && b != "" && a[0] == b[0]
    ensures LowerAt(a, b, n + 1) <==> LowerAt(a[1..], b[1..], n)
    ensures !LowerAt(a, b, 0)
  {
    if n < |b| - 1 && n <= |a| - 1 {
      assert a[..n + 1] == [a[0]] + a[1..][..n] && b[..n + 1] == [b[0]] + b[1..][..n];
      assert a[..n + 1][1..] == a[1..][..n] && b[..n + 1][1..] == b[1..][..n];
    }
  }

  lemma LowerFirst(a: string, b: string, n: nat)
    requires a != "" && b != "" && a[0] != b[0]
    ensures LowerAt(a, b, n) <==> n == 0 && a[0] < b[0]
  {
    if 0 < n <= |a| && n < |b| {
      assert a[..n][0] == a[0] && b[..n][0] == b[0];
    }
  }

  lemma LowerBehind(a: string, b: string)
    requires a != "" && b != "" && a[0] == b[0]
    ensures Lower(a, b) <==> Lower(a[1..], b[1..])
  {
    LowerCons(a, b, 0);
    hide LowerAt;
    if n: nat :| LowerAt(a, b, n) {
      LowerCons(a, b, n - 1);
    }
    if n: nat :| LowerAt(a[1..], b[1..], n) {
      LowerCons(a, b, n);
    }
  }

  lemma {:induction false} BeforeMeans(a: string, b: string)
    ensures Before(a, b) <==> Lower(a, b)
    decreases |a|
  {
    if b == "" {
    } else if a == "" {
      assert LowerAt(a, b, 0);
    } else if a[0] != b[0] {
      forall n: nat ensures LowerAt(a, b, n) <==> n == 0 && a[0] < b[0] {
        LowerFirst(a, b, n);
      }
      assert LowerAt(a, b, 0) == (a[0] < b[0]);
    } else {
      BeforeMeans(a[1..], b[1..]);
      LowerBehind(a, b);
    }
  }
}

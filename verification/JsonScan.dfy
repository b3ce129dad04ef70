/** Canonical texts delimit themselves: a bracket and string scanner finds where one ends. */
module JsonScan {
  import opened JsonText

  /** Where the scanner stands: how deep in brackets, and whether inside a string or an escape. */
  datatype Mode = Plain | Quoted | Escaped

  /** How many characters it takes before a separator or closing bracket of the outermost level. */
  function Scan(s: string, depth: nat, mode: Mode): nat
    decreases |s|
  {
    if s == "" then 0
    else
      var c, rest := s[0], s[1..];
      match mode
      case Escaped => 1 + Scan(rest, depth, Quoted)
      case Quoted =>
        if c == '\\' then 1 + Scan(rest, depth, Escaped)
        else if c == '\"' then 1 + Scan(rest, depth, Plain)
        else 1 + Scan(rest, depth, Quoted)
      case Plain =>
        if c == '\"' then 1 + Scan(rest, depth, Quoted)
        else if c == '[' || c == '{' then 1 + Scan(rest, depth + 1, Plain)
        else if c == ']' || c == '}' then (if depth == 0 then 0 else 1 + Scan(rest, depth - 1, Plain))
        else if c == ',' && depth == 0 then 0
        else 1 + Scan(rest, depth, Plain)
  }

  predicate Ends(r: string) {
    r == "" || r[0] == ',' || r[0] == ']' || r[0] == '}'
  }

  /** The scanner passes over `t` at this depth, whatever follows. */
  ghost predicate Passes(t: string, depth: nat) {
    forall r: string :: Scan(t + r, depth, Plain) == |t| + Scan(r, depth, Plain)
  }

  lemma PassesAppend(a: string, b: string, depth: nat)
    requires Passes(a, depth) && Passes(b, depth)
    ensures Passes(a + b, depth)
  {
    forall r: string ensures Scan(a + b + r, depth, Plain) == |a + b| + Scan(r, depth, Plain) {
      assert a + b + r == a + (b + r);
    }
  }

  predicate OrdinaryChar(c: char) {
    c != '\"' && c != '[' && c != '{' && c != ']' && c != '}' && c != ','
  }

  lemma {:induction false} OrdinaryPasses(t: string, depth: nat)
    requires forall i :: 0 <= i < |t| ==> OrdinaryChar(t[i])
    ensures Passes(t, depth)
  {
    forall r: string ensures Scan(t + r, depth, Plain) == |t| + Scan(r, depth, Plain) {
      if t == "" {
        assert t + r == r;
      } else {
        OrdinaryPasses(t[1..], depth);
        assert (t + r)[1..] == t[1..] + r;
      }
    }
  }

  lemma CommaPasses(depth: nat)
    requires depth > 0
    ensures Passes([','], depth)
  {
    forall r: string ensures Scan([','] + r, depth, Plain) == 1 + Scan(r, depth, Plain) {
      assert ([','] + r)[1..] == r;
    }
  }

  lemma EscapePasses(c: char, r: string, depth: nat)
    ensures Scan(Escape(c) + r, depth, Quoted) == |Escape(c)| + Scan(r, depth, Quoted)
  {
    var e := Escape(c);
    assert (e + r)[1..] == e[1..] + r;
    if |e| == 1 {
      assert e[1..] + r == r;
    } else {
      assert (e[1..] + r)[1..] == e[2..] + r;
      if |e| == 2 {
        assert e[2..] + r == r;
      } else {
        HexPasses(e[2..], r, depth);
      }
    }
  }

  lemma HexPasses(t: string, r: string, depth: nat)
    requires |t| == 4 && forall i :: 0 <= i < 4 ==> t[i] != '\\' && t[i] != '\"'
    ensures Scan(t + r, depth, Quoted) == 4 + Scan(r, depth, Quoted)
  {
    var d3 := [t[3]] + r;
    var d2 := [t[2]] + d3;
    var d1 := [t[1]] + d2;
    assert t + r == [t[0]] + d1;
    QuotedChar(t[3], r, depth);
    QuotedChar(t[2], d3, depth);
    QuotedChar(t[1], d2, depth);
    QuotedChar(t[0], d1, depth);
  }

  lemma QuotedChar(c: char, r: string, depth: nat)
    requires c != '\\' && c != '\"'
    ensures Scan([c] + r, depth, Quoted) == 1 + Scan(r, depth, Quoted)
  {
    assert ([c] + r)[1..] == r;
  }

  lemma {:induction false} EscapesPass(s: string, r: string, depth: nat)
    ensures Scan(EscapeAll(s) + r, depth, Quoted) == |EscapeAll(s)| + Scan(r, depth, Quoted)
  {
    if s == "" {
      assert "" + r == r;
    } else {
      var rest := EscapeAll(s[1..]) + r;
      assert EscapeAll(s) + r == Escape(s[0]) + rest;
      EscapePasses(s[0], rest, depth);
      EscapesPass(s[1..], r, depth);
    }
  }

  lemma QuotePasses(s: string, depth: nat)
    ensures Passes(Quote(s), depth)
  {
    forall r: string ensures Scan(Quote(s) + r, depth, Plain) == |Quote(s)| + Scan(r, depth, Plain) {
      hide Escape;
      var close := ['\"'] + r;
      assert Quote(s) + r == ['\"'] + (EscapeAll(s) + close);
      assert (['\"'] + (EscapeAll(s) + close))[1..] == EscapeAll(s) + close;
      EscapesPass(s, close, depth);
      assert close[1..] == r;
    }
  }

  ghost predicate AllPass(parts: seq<string>) {
    forall i, depth: nat :: 0 <= i < |parts| ==> Passes(parts[i], depth)
  }

  lemma {:induction false} JoinPasses(parts: seq<string>, depth: nat)
    requires AllPass(parts) && depth > 0
    ensures Passes(Join(parts), depth)
  {
    if parts == [] {
      OrdinaryPasses("", depth);
    } else if |parts| > 1 {
      JoinPasses(parts[1..], depth);
      CommaPasses(depth);
      assert Passes(parts[0], depth);
      PassesAppend(parts[0], [','], depth);
      PassesAppend(parts[0] + [','], Join(parts[1..]), depth);
    } else {
      assert Passes(parts[0], depth);
    }
  }

  lemma BracketPasses(open: char, body: string, close: char, depth: nat)
    requires Passes(body, depth + 1)
    requires (open == '[' && close == ']') || (open == '{' && close == '}')
    ensures Passes([open] + body + [close], depth)
  {
    forall r: string
      ensures Scan([open] + body + [close] + r, depth, Plain) == |body| + 2 + Scan(r, depth, Plain)
    {
      var tail := [close] + r;
      assert [open] + body + [close] + r == [open] + (body + tail);
      assert ([open] + (body + tail))[1..] == body + tail;
      assert Scan(body + tail, depth + 1, Plain) == |body| + Scan(tail, depth + 1, Plain);
      assert tail[1..] == r;
    }
  }

  lemma SpellPasses(m: Member, depth: nat)
    requires Passes(m.1, depth)
    ensures Passes(Spell(m), depth)
  {
    QuotePasses(m.0, depth);
    OrdinaryPasses([':'], depth);
    PassesAppend(Quote(m.0), [':'], depth);
    PassesAppend(Quote(m.0) + [':'], m.1, depth);
  }

  lemma {:induction false} InsertElements(m: Member, sorted: seq<Member>)
    ensures forall x :: x in Insert(m, sorted) <==> x == m || x in sorted
  {
    if sorted != [] && !Before(m.0, sorted[0].0) {
      InsertElements(m, sorted[1..]);
      assert sorted == [sorted[0]] + sorted[1..];
    }
  }

  lemma {:induction false} SortElements(members: seq<Member>)
    ensures forall x :: x in Sort(members) <==> x in members
  {
    if members == [] {
    } else {
      SortElements(members[1..]);
      InsertElements(members[0], Sort(members[1..]));
      assert members == [members[0]] + members[1..];
    }
  }

  /** A field that is written is a member, and every member is one. */
  lemma {:induction false} MemberOfField(fields: seq<Field>, i: nat)
    requires i < |fields| && !fields[i].value.Undefined?
    ensures (fields[i].key, Canon(fields[i].value)) in Members(fields)
  {
    if i == 0 {
    } else {
      MemberOfField(fields[1..], i - 1);
    }
  }

  lemma {:induction false} FieldOfMember(fields: seq<Field>, m: Member) returns (i: nat)
    requires m in Members(fields)
    ensures i < |fields| && fields[i].key == m.0 && !fields[i].value.Undefined? && Canon(fields[i].value) == m.1
  {
    var f := fields[0];
    if !f.value.Undefined? && m == (f.key, Canon(f.value)) {
      i := 0;
    } else {
      var k := FieldOfMember(fields[1..], m);
      i := k + 1;
    }
  }

  /** Every canonical text is passed over at any depth. */
  lemma {:induction false} CanonPasses(v: Json, depth: nat)
    requires Writable(v) || v.Undefined?
    ensures Passes(Canon(v), depth)
    decreases v
  {
    match v
    case Undefined => OrdinaryPasses("", depth);
    case Null => OrdinaryPasses("null", depth);
    case Bool(b) =>
      OrdinaryPasses("true", depth);
      OrdinaryPasses("false", depth);
    case Number(text) => OrdinaryPasses(text, depth);
    case Text(s) => QuotePasses(s, depth);
    case Array(items) =>
      forall i, d: nat | 0 <= i < |items| ensures Passes(CanonItems(items)[i], d) {
        CanonPasses(items[i], d);
      }
      JoinPasses(CanonItems(items), depth + 1);
      BracketPasses('[', Join(CanonItems(items)), ']', depth);
    case Object(fields) =>
      FieldsPass(v, depth);
  }

  lemma {:induction false} FieldsPass(v: Json, depth: nat)
    requires Writable(v) && v.Object?
    ensures Passes(Canon(v), depth)
    decreases v, 0
  {
    var sorted := Sort(Members(v.fields));
    forall m, d: nat | m in sorted ensures Passes(m.1, d) {
      SortElements(Members(v.fields));
      var i := FieldOfMember(v.fields, m);
      CanonPasses(v.fields[i].value, d);
    }
    forall i, d: nat | 0 <= i < |sorted| ensures Passes(SpellAll(sorted)[i], d) {
      assert sorted[i] in sorted;
      SpellPasses(sorted[i], d);
    }
    JoinPasses(SpellAll(sorted), depth + 1);
    BracketPasses('{', Join(SpellAll(sorted)), '}', depth);
  }
}

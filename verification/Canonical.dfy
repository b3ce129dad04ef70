/** Two values have the same canonical text exactly when they have the same content. */
module Canonical {
  import opened JsonText
  import opened JsonScan
  import opened JsonRead

  /** A text can be cut off the front of whatever follows it in only one way. */
  lemma CutText(t: string, u: string, r: string, s: string)
    requires Passes(t, 0) && Passes(u, 0) && Ends(r) && Ends(s) && t + r == u + s
    ensures t == u && r == s
  {
    assert Scan(t + r, 0, Plain) == |t| + Scan(r, 0, Plain);
    assert Scan(u + s, 0, Plain) == |u| + Scan(s, 0, Plain);
    assert t == (t + r)[..|t|] && u == (u + s)[..|u|];
    assert r == (t + r)[|t|..] && s == (u + s)[|u|..];
  }

  /** Joined parts followed by a closing bracket determine the parts, if there are any. */
  lemma {:induction false} JoinedParts(a: seq<string>, b: seq<string>, close: string)
    requires AllPass(a) && AllPass(b) && |close| == 1 && (close[0] == ']' || close[0] == '}')
    requires a != [] && b != [] && Join(a) + close == Join(b) + close
    ensures a == b
    decreases |a|
  {
    var r := JoinTail(a, close);
    var s := JoinTail(b, close);
    assert Passes(a[0], 0) && Passes(b[0], 0);
    CutText(a[0], b[0], r, s);
    if |a| > 1 && |b| > 1 {
      assert r[1..] == Join(a[1..]) + close && s[1..] == Join(b[1..]) + close;
      JoinedParts(a[1..], b[1..], close);
      assert a == [a[0]] + a[1..] && b == [b[0]] + b[1..];
    }
  }

  lemma JoinedNothing(parts: seq<string>)
    requires Join(parts) == ""
    ensures parts == [] || parts == [""]
  {
  }

  /** A single empty part cannot be told from no part at all; everything else can. */
  lemma JoinInjective(a: seq<string>, b: seq<string>, close: string)
    requires AllPass(a) && AllPass(b) && |close| == 1 && (close[0] == ']' || close[0] == '}')
    requires Join(a) + close == Join(b) + close && a != [""] && b != [""]
    ensures a == b
  {
    if a == [] || b == [] {
      assert |Join(a)| == |Join(b)|;
      JoinedNothing(a);
      JoinedNothing(b);
    } else {
      JoinedParts(a, b, close);
    }
  }

  /** What follows the first part. */
  lemma JoinTail(parts: seq<string>, close: string) returns (r: string)
    requires parts != [] && |close| == 1 && (close[0] == ']' || close[0] == '}')
    ensures Join(parts) + close == parts[0] + r && Ends(r)
    ensures |parts| == 1 ==> r == close
    ensures |parts| > 1 ==> r == [','] + (Join(parts[1..]) + close)
  {
    if |parts| == 1 {
      r := close;
    } else {
      r := [','] + (Join(parts[1..]) + close);
      assert parts[0] + [','] + Join(parts[1..]) + close == parts[0] + r;
    }
  }

  // ----- strings -----

  lemma EscapeCut(a: char, b: char, r: string, s: string)
    requires Escape(a) + r == Escape(b) + s
    ensures a == b && r == s
  {
    var e, f := Escape(a), Escape(b);
    var all := e + r;
    assert all[0] == e[0] == f[0];
    if e[0] == '\\' {
      assert |e| > 1 && |f| > 1 && all[1] == e[1] == f[1];
      if |e| == 6 {
        assert |f| == 6;
        assert all[4] == e[4] == f[4] && all[5] == e[5] == f[5];
        HexDistinct(a, b);
      }
    }
    assert r == all[|e|..] && s == (f + s)[|f|..];
  }

  lemma HexDistinct(a: char, b: char)
    requires a < ' ' && b < ' '
    requires HEX[a as int / 16] == HEX[b as int / 16] && HEX[a as int % 16] == HEX[b as int % 16]
    ensures a == b
  {
    assert forall i, j :: 0 <= i < j < 16 ==> HEX[i] != HEX[j];
  }

  /** The first character of a string is its first escape; the closing quote is none. */
  lemma FrontEscape(a: string, x: string)
    requires a != ""
    ensures EscapeAll(a) + x == Escape(a[0]) + (EscapeAll(a[1..]) + x)
    ensures (EscapeAll(a) + x)[0] != '\"'
  {
    EscapeOpens(a[0]);
    hide Escape;
    var e, rest := Escape(a[0]), EscapeAll(a[1..]);
    assert EscapeAll(a) == e + rest;
    FrontOf(e, rest, x);
  }

  lemma FrontOf(a: string, b: string, c: string)
    requires a != ""
    ensures a + b + c == a + (b + c) && (a + b + c)[0] == a[0]
  {
  }

  lemma EscapeOpens(c: char)
    ensures Escape(c) != "" && Escape(c)[0] != '\"'
  {
  }

  lemma {:induction false} EscapesCut(a: string, b: string, x: string, y: string)
    requires x != "" && y != "" && x[0] == '\"' && y[0] == '\"'
    requires EscapeAll(a) + x == EscapeAll(b) + y
    ensures a == b && x == y
    decreases |a|
  {
    hide Escape;
    assert "" + x == x && "" + y == y;
    if a != "" && b != "" {
      FrontEscape(a, x);
      FrontEscape(b, y);
      EscapeCut(a[0], b[0], EscapeAll(a[1..]) + x, EscapeAll(b[1..]) + y);
      EscapesCut(a[1..], b[1..], x, y);
      assert a == [a[0]] + a[1..] && b == [b[0]] + b[1..];
    } else if a != "" {
      FrontEscape(a, x);
    } else if b != "" {
      FrontEscape(b, y);
    }
  }

  lemma QuoteOpens(a: string, r: string)
    ensures (Quote(a) + r)[1..] == EscapeAll(a) + (['\"'] + r)
  {
    hide EscapeAll;
  }

  lemma QuoteCut(a: string, b: string, r: string, s: string)
    requires Quote(a) + r == Quote(b) + s
    ensures a == b && r == s
  {
    QuoteOpens(a, r);
    QuoteOpens(b, s);
    EscapesCut(a, b, ['\"'] + r, ['\"'] + s);
    assert (['\"'] + r)[1..] == r && (['\"'] + s)[1..] == s;
  }

  lemma SpellInjective(m: Member, n: Member)
    requires Spell(m) == Spell(n)
    ensures m == n
  {
    var r, s := [':'] + m.1, [':'] + n.1;
    assert Spell(m) == Quote(m.0) + r && Spell(n) == Quote(n.0) + s;
    QuoteCut(m.0, n.0, r, s);
    assert r[1..] == m.1 && s[1..] == n.1;
  }

  // ----- equal texts mean equal content -----

  /** The first character tells the kind of value. */
  function Kind(v: Json): nat {
    match v
    case Null => 1
    case Bool(_) => 2
    case Number(_) => 3
    case Text(_) => 4
    case Array(_) => 5
    case Object(_) => 6
    case _ => 0
  }

  function KindOfChar(c: char): nat {
    if c == 'n' then 1 else if c == 't' || c == 'f' then 2 else if NumberChar(c) then 3
    else if c == '\"' then 4 else if c == '[' then 5 else if c == '{' then 6 else 0
  }

  lemma KindShows(v: Json)
    requires Writable(v)
    ensures Canon(v) != "" && KindOfChar(Canon(v)[0]) == Kind(v)
  {
  }

  lemma ItemsParts(items: seq<Json>)
    requires Proper(Array(items))
    ensures AllPass(CanonItems(items)) && CanonItems(items) != [""]
  {
    forall i, depth: nat | 0 <= i < |items| ensures Passes(CanonItems(items)[i], depth) {
      CanonPasses(items[i], depth);
    }
    if |items| == 1 && !items[0].Undefined? {
      KindShows(items[0]);
    }
  }

  lemma MembersParts(fields: seq<Field>)
    requires Proper(Object(fields))
    ensures AllPass(SpellAll(Sort(Members(fields)))) && SpellAll(Sort(Members(fields))) != [""]
  {
    var sorted := Sort(Members(fields));
    forall i, depth: nat | 0 <= i < |sorted| ensures Passes(SpellAll(sorted)[i], depth) {
      assert sorted[i] in sorted;
      SortElements(Members(fields));
      var k := FieldOfMember(fields, sorted[i]);
      CanonPasses(fields[k].value, depth);
      SpellPasses(sorted[i], depth);
    }
    if sorted != [] {
      assert |SpellAll(sorted)[0]| >= |Quote(sorted[0].0)| > 0;
    }
  }

  lemma BracketBody(open: char, a: string, b: string, close: string)
    requires [open] + a + close == [open] + b + close
    ensures a + close == b + close
  {
    assert [open] + a + close == [open] + (a + close) && [open] + b + close == [open] + (b + close);
    assert ([open] + (a + close))[1..] == a + close && ([open] + (b + close))[1..] == b + close;
  }

  lemma SpellAllInjective(a: seq<Member>, b: seq<Member>)
    requires SpellAll(a) == SpellAll(b)
    ensures a == b
  {
    assert |SpellAll(a)| == |SpellAll(b)|;
    forall i | 0 <= i < |a| ensures a[i] == b[i] {
      assert SpellAll(a)[i] == SpellAll(b)[i];
      SpellInjective(a[i], b[i]);
    }
  }

  /** Equal object texts list the same members. */
  lemma ObjectMembers(f: seq<Field>, g: seq<Field>)
    requires Proper(Object(f)) && Proper(Object(g)) && Canon(Object(f)) == Canon(Object(g))
    ensures forall m :: m in Members(f) <==> m in Members(g)
  {
    var a, b := Sort(Members(f)), Sort(Members(g));
    MembersParts(f);
    MembersParts(g);
    BracketBody('{', Join(SpellAll(a)), Join(SpellAll(b)), ['}']);
    JoinInjective(SpellAll(a), SpellAll(b), ['}']);
    SpellAllInjective(a, b);
    SortElements(Members(f));
    SortElements(Members(g));
  }

  lemma {:induction false} TextDeterminesContent(v: Json, w: Json)
    requires Proper(v) && Proper(w) && Canon(v) == Canon(w)
    ensures Same(v, w)
    decreases v, 0
  {
    KindShows(v);
    KindShows(w);
    match v
    case Text(s) =>
      QuoteCut(s, w.chars, "", "");
    case Array(items) =>
      ItemsParts(items);
      ItemsParts(w.items);
      BracketBody('[', Join(CanonItems(items)), Join(CanonItems(w.items)), [']']);
      JoinInjective(CanonItems(items), CanonItems(w.items), [']']);
      forall i | 0 <= i < |items| ensures Same(items[i], w.items[i]) {
        assert CanonItems(items)[i] == CanonItems(w.items)[i];
        ItemDetermined(items, w.items, i);
      }
    case Object(fields) =>
      ObjectMembers(fields, w.fields);
      FieldsDetermined(fields, w.fields);
    case _ =>
  }

  lemma {:induction false} ItemDetermined(a: seq<Json>, b: seq<Json>, i: nat)
    requires Proper(Array(a)) && Proper(Array(b)) && i < |a| && i < |b| && Canon(a[i]) == Canon(b[i])
    ensures Same(a[i], b[i])
    decreases a, 1
  {
    if a[i].Undefined? {
      if !b[i].Undefined? {
        KindShows(b[i]);
      }
    } else if b[i].Undefined? {
      KindShows(a[i]);
    } else {
      TextDeterminesContent(a[i], b[i]);
    }
  }

  lemma {:induction false} FieldsDetermined(f: seq<Field>, g: seq<Field>)
    requires Proper(Object(f)) && Proper(Object(g))
    requires forall m :: m in Members(f) <==> m in Members(g)
    ensures SameFields(f, g) && KeysWithin(g, f)
    decreases f
  {
    forall i | 0 <= i < |f| && !f[i].value.Undefined? ensures HasPartner(f[i], g) {
      MemberOfField(f, i);
      var j := FieldOfMember(g, (f[i].key, Canon(f[i].value)));
      ProperField(f, i);
      ProperField(g, j);
      TextDeterminesContent(f[i].value, g[j].value);
    }
    forall j | 0 <= j < |g| && !g[j].value.Undefined? ensures HasKey(f, g[j].key) {
      MemberOfField(g, j);
      var i := FieldOfMember(f, (g[j].key, Canon(g[j].value)));
    }
  }

  // ----- equal content gives equal texts -----

  lemma {:induction false} BeforeTrans(a: string, b: string, c: string)
    requires Before(a, b) && Before(b, c)
    ensures Before(a, c)
    decreases |a|
  {
    if a != "" && a[0] == b[0] && b[0] == c[0] {
      BeforeTrans(a[1..], b[1..], c[1..]);
    }
  }

  lemma {:induction false} BeforeTotal(a: string, b: string)
    ensures a == b || Before(a, b) || Before(b, a)
    ensures !Before(a, a)
    decreases |a|
  {
    if a != "" && b != "" && a[0] == b[0] {
      BeforeTotal(a[1..], b[1..]);
      assert a == [a[0]] + a[1..] && b == [b[0]] + b[1..];
    } else if a != "" {
      BeforeTotal(a[1..], a[1..]);
    }
  }

  ghost predicate Sorted(members: seq<Member>) {
    forall i, j :: 0 <= i < j < |members| ==> Before(members[i].0, members[j].0)
  }

  ghost predicate NewKey(key: string, members: seq<Member>) {
    forall m :: m in members ==> m.0 != key
  }

  lemma {:induction false} InsertSorted(m: Member, sorted: seq<Member>)
    requires Sorted(sorted) && NewKey(m.0, sorted)
    ensures Sorted(Insert(m, sorted))
    decreases |sorted|
  {
    if sorted == [] {
    } else {
      assert sorted[0] in sorted;
      if Before(m.0, sorted[0].0) {
        forall j | 0 < j < |sorted| ensures Before(m.0, sorted[j].0) {
          BeforeTrans(m.0, sorted[0].0, sorted[j].0);
        }
      } else {
        var rest := sorted[1..];
        BeforeTotal(m.0, sorted[0].0);
        InsertSorted(m, rest);
        InsertElements(m, rest);
        var r := Insert(m, rest);
        forall j | 0 <= j < |r| ensures Before(sorted[0].0, r[j].0) {
          assert r[j] in r;
        }
      }
    }
  }

  ghost predicate DistinctMembers(members: seq<Member>) {
    forall i, j :: 0 <= i < j < |members| ==> members[i].0 != members[j].0
  }

  lemma {:induction false} SortSorted(members: seq<Member>)
    requires DistinctMembers(members)
    ensures Sorted(Sort(members))
    decreases |members|
  {
    if members == [] {
    } else {
      SortSorted(members[1..]);
      SortElements(members[1..]);
      InsertSorted(members[0], Sort(members[1..]));
    }
  }

  /** A sorted list is determined by its elements. */
  lemma {:induction false} SortedUnique(a: seq<Member>, b: seq<Member>)
    requires Sorted(a) && Sorted(b) && forall m :: m in a <==> m in b
    ensures a == b
    decreases |a|
  {
    if b != [] {
      assert b[0] in b;
    }
    if a == [] {
    } else {
      assert a[0] in a;
      FirstEqual(a, b);
      RestSame(a, b);
      RestSame(b, a);
      SortedUnique(a[1..], b[1..]);
      assert a == [a[0]] + a[1..] && b == [b[0]] + b[1..];
    }
  }

  lemma FirstEqual(a: seq<Member>, b: seq<Member>)
    requires Sorted(a) && Sorted(b) && a != [] && b != [] && forall m :: m in a <==> m in b
    ensures a[0] == b[0]
  {
    assert a[0] in a && b[0] in b;
    var i :| 0 <= i < |b| && b[i] == a[0];
    var j :| 0 <= j < |a| && a[j] == b[0];
    if i > 0 && j > 0 {
      BeforeTrans(a[0].0, b[0].0, a[0].0);
      BeforeTotal(a[0].0, a[0].0);
    }
  }

  lemma RestSame(a: seq<Member>, b: seq<Member>)
    requires Sorted(a) && Sorted(b) && a != [] && b != [] && a[0] == b[0] && forall m :: m in a <==> m in b
    ensures forall m :: m in a[1..] ==> m in b[1..]
  {
    forall m | m in a[1..] ensures m in b[1..] {
      assert m in a;
      var i :| 0 <= i < |b| && b[i] == m;
      var k :| 1 <= k < |a| && a[k] == m;
      BeforeTotal(m.0, m.0);
      assert i != 0;
      assert b[1..][i - 1] == m;
    }
  }

  lemma {:induction false} MembersDistinct(fields: seq<Field>)
    requires DistinctKeys(fields)
    ensures DistinctMembers(Members(fields))
    decreases |fields|
  {
    if fields == [] {
    } else {
      var rest := Members(fields[1..]);
      MembersDistinct(fields[1..]);
      forall k | 0 <= k < |rest| ensures rest[k].0 != fields[0].key {
        assert rest[k] in rest;
        var i := FieldOfMember(fields[1..], rest[k]);
      }
    }
  }

  /** The partner of a written field in an object of the same content. */
  lemma PartnerField(f: seq<Field>, g: seq<Field>, i: nat) returns (j: nat)
    requires SameFields(f, g) && i < |f| && !f[i].value.Undefined?
    ensures j < |g| && g[j].key == f[i].key && !g[j].value.Undefined? && Same(f[i].value, g[j].value)
  {
    assert HasPartner(f[i], g);
    j :| 0 <= j < |g| && g[j].key == f[i].key && !g[j].value.Undefined? && Same(f[i].value, g[j].value);
  }

  lemma PartnerBack(f: seq<Field>, g: seq<Field>, j: nat) returns (i: nat)
    requires KeysWithin(g, f) && j < |g| && !g[j].value.Undefined?
    ensures i < |f| && f[i].key == g[j].key && !f[i].value.Undefined?
  {
    assert HasKey(f, g[j].key);
    i :| 0 <= i < |f| && f[i].key == g[j].key && !f[i].value.Undefined?;
  }

  lemma ProperField(f: seq<Field>, i: nat)
    requires Proper(Object(f)) && i < |f| && !f[i].value.Undefined?
    ensures Proper(f[i].value)
  {
  }

  lemma KeyOnce(f: seq<Field>, i: nat, j: nat)
    requires Proper(Object(f)) && i < |f| && j < |f| && f[i].key == f[j].key
    ensures i == j
  {
  }

  /** Field for field equal content gives the same members. */
  lemma {:induction false} SameMembers(f: seq<Field>, g: seq<Field>)
    requires Proper(Object(f)) && Proper(Object(g)) && SameFields(f, g) && KeysWithin(g, f)
    ensures forall m :: m in Members(f) <==> m in Members(g)
    decreases f, 1
  {
    forall m | m in Members(f) ensures m in Members(g) {
      var i := FieldOfMember(f, m);
      var j := PairedField(f, g, i);
    }
    forall m | m in Members(g) ensures m in Members(f) {
      var j := FieldOfMember(g, m);
      var i := PartnerBack(f, g, j);
      var k := PairedField(f, g, i);
      KeyOnce(g, j, k);
      MemberOfField(f, i);
    }
  }

  lemma {:induction false} PairedField(f: seq<Field>, g: seq<Field>, i: nat) returns (j: nat)
    requires Proper(Object(f)) && Proper(Object(g)) && SameFields(f, g)
    requires i < |f| && !f[i].value.Undefined?
    ensures j < |g| && g[j].key == f[i].key && !g[j].value.Undefined?
    ensures Canon(g[j].value) == Canon(f[i].value)
    ensures (f[i].key, Canon(f[i].value)) in Members(g)
    decreases f, 0
  {
    j := PartnerField(f, g, i);
    ProperField(f, i);
    ProperField(g, j);
    ContentDeterminesText(f[i].value, g[j].value);
    MemberOfField(g, j);
  }

  lemma {:induction false} ContentDeterminesText(v: Json, w: Json)
    requires Proper(v) && Proper(w) && Same(v, w)
    ensures Canon(v) == Canon(w)
    decreases v
  {
    match v
    case Array(items) =>
      forall i | 0 <= i < |items| ensures CanonItems(items)[i] == CanonItems(w.items)[i] {
        assert Same(items[i], w.items[i]);
        if !items[i].Undefined? {
          ContentDeterminesText(items[i], w.items[i]);
        }
      }
      assert CanonItems(items) == CanonItems(w.items);
    case Object(fields) =>
      SameMembers(fields, w.fields);
      MembersDistinct(fields);
      MembersDistinct(w.fields);
      SortSorted(Members(fields));
      SortSorted(Members(w.fields));
      SortElements(Members(fields));
      SortElements(Members(w.fields));
      SortedUnique(Sort(Members(fields)), Sort(Members(w.fields)));
    case _ =>
  }

  /**
   The canonical text ignores field order and undefined fields and nothing else, as long as no
   array consists of one undefined item: two such values are written alike exactly when their
   content is the same.
   */
  lemma CanonicalExactly(v: Json, w: Json)
    requires Proper(v) && Proper(w)
    ensures Canonicalize(v).Some? && Canonicalize(w).Some?
    ensures Canonicalize(v) == Canonicalize(w) <==> Same(v, w)
  {
    WritableIsFinite(v);
    WritableIsFinite(w);
    if Canon(v) == Canon(w) {
      TextDeterminesContent(v, w);
    }
    if Same(v, w) {
      ContentDeterminesText(v, w);
    }
  }

  // ----- arrays of one undefined item -----

  /** The array of one undefined item is written as the empty array. */
  lemma UndefinedItemVanishes()
    ensures Canonicalize(Array([Undefined])) == Canonicalize(Array([]))
    ensures !Same(Array([Undefined]), Array([]))
  {
    assert CanonItems([Undefined]) == [Canon(Undefined)] + CanonItems([]);
    assert Join([""]) == Join([]);
  }

  lemma {:induction false} EmptiedText(v: Json)
    requires Writable(v) || v.Undefined?
    ensures Canon(Emptied(v)) == Canon(v)
    decreases v, 0
  {
    match v
    case Array(items) =>
      if items == [Undefined] {
        UndefinedItemVanishes();
      } else {
        forall i | 0 <= i < |items| ensures CanonItems(EmptiedItems(items))[i] == CanonItems(items)[i] {
          EmptiedText(items[i]);
        }
        assert CanonItems(EmptiedItems(items)) == CanonItems(items);
      }
    case Object(fields) =>
      forall i | 0 <= i < |fields| ensures Canon(Emptied(fields[i].value)) == Canon(fields[i].value) {
        EmptiedText(fields[i].value);
      }
      EmptiedMembers(fields);
    case _ =>
  }

  lemma {:induction false} EmptiedMembers(fields: seq<Field>)
    requires forall i :: 0 <= i < |fields| ==> Canon(Emptied(fields[i].value)) == Canon(fields[i].value)
    ensures Members(EmptiedFields(fields)) == Members(fields)
    decreases |fields|
  {
    if fields == [] {
    } else {
      EmptiedMembers(fields[1..]);
      assert EmptiedFields(fields)[1..] == EmptiedFields(fields[1..]);
      assert Canon(Emptied(fields[0].value)) == Canon(fields[0].value);
    }
  }

  lemma {:induction false} EmptiedProper(v: Json)
    requires Writable(v)
    ensures Proper(Emptied(v))
    decreases v
  {
    match v
    case Array(items) =>
      if items != [Undefined] {
        forall i | 0 <= i < |items| && !items[i].Undefined? ensures Proper(Emptied(items[i])) {
          EmptiedProper(items[i]);
        }
        if |items| == 1 {
          assert !items[0].Undefined? && EmptiedItems(items)[0] == Emptied(items[0]);
        }
      }
    case Object(fields) =>
      forall i | 0 <= i < |fields| && !fields[i].value.Undefined? ensures Proper(Emptied(fields[i].value)) {
        EmptiedProper(fields[i].value);
      }
    case _ =>
  }

  /** For everything that can be written: equal texts exactly when the contents agree up to `[undefined]` for `[]`. */
  lemma TextsMeet(v: Json, w: Json)
    requires Writable(v) && Writable(w)
    ensures Canonicalize(v).Some? && Canonicalize(w).Some?
    ensures Canonicalize(v) == Canonicalize(w) <==> Same(Emptied(v), Emptied(w))
  {
    WritableIsFinite(v);
    WritableIsFinite(w);
    EmptiedText(v);
    EmptiedText(w);
    EmptiedProper(v);
    EmptiedProper(w);
    CanonicalExactly(Emptied(v), Emptied(w));
  }

  /** So every value with `[undefined]` in it shares its text with one of different content. */
  lemma LoneCollides(v: Json)
    requires Writable(v) && Lone(v)
    ensures Proper(Emptied(v)) && Canonicalize(Emptied(v)) == Canonicalize(v) && !Same(v, Emptied(v))
  {
    WritableIsFinite(v);
    EmptiedText(v);
    EmptiedProper(v);
    WritableIsFinite(Emptied(v));
    EmptiedDiffers(v);
  }

  lemma {:induction false} EmptiedDiffers(v: Json)
    requires Writable(v) && Lone(v)
    ensures !Same(v, Emptied(v))
    decreases v
  {
    match v
    case Array(items) =>
      if items != [Undefined] {
        var i :| 0 <= i < |items| && Lone(items[i]);
        EmptiedDiffers(items[i]);
        assert !Same(items[i], EmptiedItems(items)[i]);
      }
    case Object(fields) =>
      var i :| 0 <= i < |fields| && Lone(fields[i].value);
      EmptiedDiffers(fields[i].value);
      NoPartner(fields, i);
  }

  lemma NoPartner(fields: seq<Field>, i: nat)
    requires Writable(Object(fields)) && i < |fields| && !fields[i].value.Undefined?
    requires !Same(fields[i].value, Emptied(fields[i].value))
    ensures !HasPartner(fields[i], EmptiedFields(fields))
  {
    var g := EmptiedFields(fields);
    forall j | 0 <= j < |g| && g[j].key == fields[i].key ensures j == i {
      assert fields[j].key == fields[i].key;
    }
  }

  // ----- the order of the keys -----

  /**
   The fields that a reader finds in a canonical object: their keys ascend by code unit, and they
   are the keys of the fields that are not undefined.
   */
  lemma KeysAscend(fields: seq<Field>)
    requires Writable(Object(fields)) && Pure(Object(fields))
    ensures var f := Content(Object(fields)).fields;
            && (forall i, j :: 0 <= i < j < |f| ==> Lower(f[i].key, f[j].key))
            && (forall i :: 0 <= i < |f| ==> HasKey(fields, f[i].key))
            && (forall i :: 0 <= i < |fields| && !fields[i].value.Undefined? ==> KeyIn(f, fields[i].key))
  {
    var members, f := Sort(Members(fields)), Content(Object(fields)).fields;
    MembersDistinct(fields);
    SortSorted(Members(fields));
    SortElements(Members(fields));
    MembersAligned(fields);
    hide Spells;
    SortAligned(Members(fields), ContentFields(fields));
    forall i, j | 0 <= i < j < |f| ensures Lower(f[i].key, f[j].key) {
      BeforeMeans(members[i].0, members[j].0);
    }
    forall i | 0 <= i < |f| ensures HasKey(fields, f[i].key) {
      assert members[i] in members;
      var k := FieldOfMember(fields, members[i]);
    }
    forall i | 0 <= i < |fields| && !fields[i].value.Undefined? ensures KeyIn(f, fields[i].key) {
      MemberOfField(fields, i);
      var m := (fields[i].key, Canon(fields[i].value));
      assert m in members;
      var k :| 0 <= k < |members| && members[k] == m;
      assert f[k].key == fields[i].key;
    }
  }

  predicate KeyIn(fields: seq<Field>, key: string) {
    exists i :: 0 <= i < |fields| && fields[i].key == key
  }
}

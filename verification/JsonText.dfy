/** Canonical JSON text: what a value is written as. */
module JsonText {
  import opened Wrappers

  /**
   A JavaScript value made of data. A number is known by the text JSON gives it; numbers
   without one are `NotFinite`. Object fields are in insertion order.
   */
  datatype Json =
    | Null
    | Undefined
    | Bool(value: bool)
    | Number(text: string)
    | NotFinite
    | Text(chars: string)
    | Array(items: seq<Json>)
    | Object(fields: seq<Field>)

  datatype Field = Field(key: string, value: Json)

  const HEX: string := "0123456789abcdef"

  /** How JSON writes one character of a string. */
  function Escape(c: char): (r: string)
    ensures |r| > 0
  {
    if c == '\"' then ['\\', '\"']
    else if c == '\\' then ['\\', '\\']
    else if c == 8 as char then ['\\', 'b']
    else if c == 9 as char then ['\\', 't']
    else if c == 10 as char then ['\\', 'n']
    else if c == 12 as char then ['\\', 'f']
    else if c == 13 as char then ['\\', 'r']
    else if c < ' ' then ['\\', 'u', '0', '0', HEX[c as int / 16], HEX[c as int % 16]]
    else [c]
  }

  function EscapeAll(s: string): string {
    if s == "" then "" else Escape(s[0]) + EscapeAll(s[1..])
  }

  function Quote(s: string): string {
    ['\"'] + EscapeAll(s) + ['\"']
  }

  predicate NumberChar(c: char) {
    '0' <= c <= '9' || c == '-' || c == '+' || c == '.' || c == 'e'
  }

  predicate NumberText(s: string) {
    s != "" && forall i :: 0 <= i < |s| ==> NumberChar(s[i])
  }

  /** `parts.join(",")` */
  function Join(parts: seq<string>): string {
    if parts == [] then "" else if |parts| == 1 then parts[0] else parts[0] + [','] + Join(parts[1..])
  }

  /** Code-unit order, the order of `sort()` on keys. */
  predicate Before(a: string, b: string) {
    if b == "" then false
    else if a == "" then true
    else a[0] < b[0] || (a[0] == b[0] && Before(a[1..], b[1..]))
  }

  type Member = (string, string)

  function Insert(m: Member, sorted: seq<Member>): seq<Member> {
    if sorted == [] || Before(m.0, sorted[0].0) then [m] + sorted
    else [sorted[0]] + Insert(m, sorted[1..])
  }

  function Sort(members: seq<Member>): seq<Member> {
    if members == [] then [] else Insert(members[0], Sort(members[1..]))
  }

  function Spell(m: Member): string {
    Quote(m.0) + [':'] + m.1
  }

  function SpellAll(members: seq<Member>): (r: seq<string>)
    ensures |r| == |members|
  {
    seq(|members|, i requires 0 <= i < |members| => Spell(members[i]))
  }

  function Canon(v: Json): string
    decreases v
  {
    match v
    case Null => "null"
    case Undefined => ""
    case Bool(b) => if b then "true" else "false"
    case Number(text) => text
    case NotFinite => ""
    case Text(s) => Quote(s)
    case Array(items) => ['['] + Join(CanonItems(items)) + [']']
    case Object(fields) => ['{'] + Join(SpellAll(Sort(Members(fields)))) + ['}']
  }

  function CanonItems(items: seq<Json>): (r: seq<string>)
    ensures |r| == |items|
    ensures forall i :: 0 <= i < |items| ==> r[i] == Canon(items[i])
    decreases items
  {
    if items == [] then [] else [Canon(items[0])] + CanonItems(items[1..])
  }

  /** The fields that are not undefined, each with its text. */
  function Members(fields: seq<Field>): (r: seq<Member>)
    decreases fields
  {
    if fields == [] then []
    else
      var f := fields[0];
      (if f.value.Undefined? then [] else [(f.key, Canon(f.value))]) + Members(fields[1..])
  }

  predicate HasNotFinite(v: Json) {
    match v
    case NotFinite => true
    case Array(items) => exists i :: 0 <= i < |items| && HasNotFinite(items[i])
    case Object(fields) => exists i :: 0 <= i < |fields| && HasNotFinite(fields[i].value)
    case _ => false
  }

  /** The source refuses numbers JSON cannot write. */
  function Canonicalize(v: Json): Option<string> {
    if HasNotFinite(v) then None else Some(Canon(v))
  }

  /** What the source can write: its numbers have a text, its keys differ, it is not undefined itself. */
  predicate Writable(v: Json) {
    match v
    case Undefined => false
    case NotFinite => false
    case Number(text) => NumberText(text)
    case Array(items) => forall i :: 0 <= i < |items| ==> items[i].Undefined? || Writable(items[i])
    case Object(fields) =>
      && DistinctKeys(fields)
      && forall i :: 0 <= i < |fields| ==> fields[i].value.Undefined? || Writable(fields[i].value)
    case _ => true
  }

  /** Somewhere in the value is an array whose only item is undefined. */
  predicate Lone(v: Json) {
    match v
    case Array(items) => items == [Undefined] || exists i :: 0 <= i < |items| && Lone(items[i])
    case Object(fields) => exists i :: 0 <= i < |fields| && Lone(fields[i].value)
    case _ => false
  }

  predicate Proper(v: Json) {
    Writable(v) && !Lone(v)
  }

  /** The same value with `[]` for every `[undefined]`. */
  function Emptied(v: Json): (r: Json)
    ensures r.Undefined? <==> v.Undefined?
    decreases v
  {
    match v
    case Array(items) => Array(if items == [Undefined] then [] else EmptiedItems(items))
    case Object(fields) => Object(EmptiedFields(fields))
    case _ => v
  }

  function EmptiedItems(items: seq<Json>): (r: seq<Json>)
    ensures |r| == |items| && forall i :: 0 <= i < |items| ==> r[i] == Emptied(items[i])
    decreases items
  {
    if items == [] then [] else [Emptied(items[0])] + EmptiedItems(items[1..])
  }

  function EmptiedFields(fields: seq<Field>): (r: seq<Field>)
    ensures |r| == |fields|
    ensures forall i :: 0 <= i < |fields| ==> r[i] == Field(fields[i].key, Emptied(fields[i].value))
    decreases fields
  {
    if fields == [] then []
    else [Field(fields[0].key, Emptied(fields[0].value))] + EmptiedFields(fields[1..])
  }

  predicate DistinctKeys(fields: seq<Field>) {
    forall i, j :: 0 <= i < j < |fields| ==> fields[i].key != fields[j].key
  }

  /** The same content: field order and undefined fields do not count. */
  predicate Same(v: Json, w: Json)
    decreases v
  {
    match (v, w)
    case (Array(a), Array(b)) => |a| == |b| && forall i :: 0 <= i < |a| ==> Same(a[i], b[i])
    case (Object(f), Object(g)) => SameFields(f, g) && KeysWithin(g, f)
    case (Array(_), _) => false
    case (Object(_), _) => false
    case _ => v == w
  }

  /** Every written field of `f` has a field of the same key and content in `g`. */
  predicate SameFields(f: seq<Field>, g: seq<Field>)
    decreases f
  {
    forall i :: 0 <= i < |f| && !f[i].value.Undefined? ==> HasPartner(f[i], g)
  }

  predicate HasPartner(x: Field, g: seq<Field>)
    decreases x
  {
    exists j :: 0 <= j < |g| && g[j].key == x.key && !g[j].value.Undefined? && Same(x.value, g[j].value)
  }

  predicate KeysWithin(g: seq<Field>, f: seq<Field>) {
    forall j :: 0 <= j < |g| && !g[j].value.Undefined? ==> HasKey(f, g[j].key)
  }

  predicate HasKey(f: seq<Field>, key: string) {
    exists i :: 0 <= i < |f| && f[i].key == key && !f[i].value.Undefined?
  }

  lemma {:induction false} WritableIsFinite(v: Json)
    requires Writable(v)
    ensures !HasNotFinite(v)
    decreases v
  {
    match v
    case Array(items) =>
      forall i | 0 <= i < |items| ensures !HasNotFinite(items[i]) {
        if !items[i].Undefined? {
          WritableIsFinite(items[i]);
        }
      }
    case Object(fields) =>
      forall i | 0 <= i < |fields| ensures !HasNotFinite(fields[i].value) {
        if !fields[i].value.Undefined? {
          WritableIsFinite(fields[i].value);
        }
      }
    case _ =>
  }
}

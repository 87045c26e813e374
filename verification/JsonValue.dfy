/**
 The value tree of lib/json/jsoncpp.cpp.

 A `char` stands for one byte.  A `std::map` keyed by `CZString` is modelled by the sequence
 of its entries in iteration order, which is strictly ascending in the key order.
 */
module JsonValue {
  import opened Optional

  /** The key of an array or object entry: an array index or a member name. */
  datatype Key = Index(i: nat) | Name(s: string)

  datatype Entry = Entry(key: Key, value: Value)

  /** The payload of a value, in the order of the `ValueType` enumeration. */
  datatype Data =
    | Null
    | Int(i: int)
    | UInt(u: nat)
    | Real(r: real)
    | Str(text: Option<string>)
    | Bool(b: bool)
    | Arr(entries: seq<Entry>)
    | Obj(entries: seq<Entry>)

  /** A value with the byte span `[start, limit)` the reader records for it. */
  datatype Value = Value(data: Data, start: nat, limit: nat)

  const NULL_VALUE := Value(Null, 0, 0)

  const MAX_INT := 0x7FFF_FFFF
  const MAX_LARGEST_INT := 0x7FFF_FFFF_FFFF_FFFF
  const MIN_LARGEST_INT := -0x8000_0000_0000_0000
  const MAX_LARGEST_UINT := 0xFFFF_FFFF_FFFF_FFFF

  // ----- keys -----

  /** `strcmp(a, b) < 0`. */
  predicate TextLess(a: string, b: string) {
    if b == [] then false
    else if a == [] then true
    else a[0] < b[0] || (a[0] == b[0] && TextLess(a[1..], b[1..]))
  }

  /** `CZString::operator<`; the source never compares a name with an index. */
  predicate KeyLess(a: Key, b: Key) {
    match (a, b)
    case (Index(i), Index(j)) => i < j
    case (Name(s), Name(t)) => TextLess(s, t)
    case (Index(_), Name(_)) => true
    case (Name(_), Index(_)) => false
  }

  lemma {:induction false} TextLessIsStrictTotalOrder(a: string, b: string, c: string)
    ensures !TextLess(a, a)
    ensures TextLess(a, b) || TextLess(b, a) || a == b
    ensures !(TextLess(a, b) && TextLess(b, a))
    ensures TextLess(a, b) && TextLess(b, c) ==> TextLess(a, c)
    decreases |a| + |b| + |c|
  {
    if a != [] || b != [] || c != [] {
      var a', b', c' := if a == [] then a else a[1..], if b == [] then b else b[1..], if c == [] then c else c[1..];
      TextLessIsStrictTotalOrder(a', b', c');
      if a != [] && b != [] && a[0] == b[0] && a' == b' {
        assert a == [a[0]] + a' == [b[0]] + b' == b;
      }
    }
  }

  lemma KeyLessIsStrictTotalOrder(a: Key, b: Key, c: Key)
    ensures !KeyLess(a, a)
    ensures KeyLess(a, b) || KeyLess(b, a) || a == b
    ensures !(KeyLess(a, b) && KeyLess(b, a))
    ensures KeyLess(a, b) && KeyLess(b, c) ==> KeyLess(a, c)
  {
    if a.Name? {
      TextLessIsStrictTotalOrder(a.s, if b.Name? then b.s else a.s, if c.Name? then c.s else a.s);
    }
  }

  // ----- entries of a map -----

  predicate Ascending(entries: seq<Entry>) {
    forall i, j :: 0 <= i < j < |entries| ==> KeyLess(entries[i].key, entries[j].key)
  }

  /** `map_->find(key)`. */
  function Find(entries: seq<Entry>, key: Key): (r: Option<Value>)
    ensures r.Some? ==> exists e :: e in entries && e.key == key && e.value == r.value
    ensures r.None? ==> forall e :: e in entries ==> e.key != key
  {
    if entries == [] then None
    else if entries[0].key == key then
      assert entries[0] in entries;
      Some(entries[0].value)
    else
      Find(entries[1..], key)
  }

  /** Insertion at `lower_bound(key)`, or replacement of the value already stored there. */
  function Put(entries: seq<Entry>, key: Key, value: Value): seq<Entry> {
    if entries == [] then [Entry(key, value)]
    else if entries[0].key == key then [Entry(key, value)] + entries[1..]
    else if KeyLess(key, entries[0].key) then [Entry(key, value)] + entries
    else [entries[0]] + Put(entries[1..], key, value)
  }

  /** Writing beyond every stored key appends: what the reader does for array elements. */
  lemma {:induction false} PutAtEnd(entries: seq<Entry>, key: Key, value: Value)
    requires forall e :: e in entries ==> KeyLess(e.key, key)
    ensures Put(entries, key, value) == entries + [Entry(key, value)]
  {
    if entries != [] {
      assert entries[0] in entries;
      KeyLessIsStrictTotalOrder(entries[0].key, key, key);
      PutAtEnd(entries[1..], key, value);
      assert entries == [entries[0]] + entries[1..];
    }
  }

  /** The written map stays ascending, holds the new value and keeps every other entry. */
  lemma {:induction false} PutIsMapUpdate(entries: seq<Entry>, key: Key, value: Value)
    requires Ascending(entries)
    ensures Ascending(Put(entries, key, value))
    ensures forall e :: e in Put(entries, key, value) <==> e == Entry(key, value) || (e in entries && e.key != key)
  {
    var r := Put(entries, key, value);
    if entries == [] {
    } else {
      var e0, rest := entries[0], entries[1..];
      assert entries == [e0] + rest;
      if e0.key == key {
        forall e | e in rest ensures e.key != key {
          var j :| 0 <= j < |rest| && rest[j] == e;
          assert rest[j] == entries[j + 1];
          KeyLessIsStrictTotalOrder(key, key, key);
        }
      } else if KeyLess(key, e0.key) {
        forall j | 0 <= j < |entries| ensures KeyLess(key, entries[j].key) && entries[j].key != key {
          KeyLessIsStrictTotalOrder(key, e0.key, entries[j].key);
          KeyLessIsStrictTotalOrder(key, key, key);
        }
      } else {
        PutIsMapUpdate(rest, key, value);
        KeyLessIsStrictTotalOrder(e0.key, key, key);
        var r' := Put(rest, key, value);
        forall j | 0 <= j < |r'| ensures KeyLess(e0.key, r'[j].key) {
          assert r'[j] in r';
        }
      }
    }
  }

  /** `Value::size()` of an array: highest index plus one. */
  function Size(entries: seq<Entry>): nat {
    if entries == [] || entries[|entries| - 1].key.Name? then 0 else entries[|entries| - 1].key.i + 1
  }

  /** `value[index]` of a constant array: a hole reads as the null value. */
  function At(entries: seq<Entry>, index: nat): (r: Value)
    ensures Height(r) <= HeightOfEntries(entries)
  {
    match Find(entries, Index(index))
    case None => NULL_VALUE
    case Some(v) => FindHeight(entries, Index(index)); v
  }

  // ----- height, the termination measure of everything that walks a tree -----

  function Height(v: Value): nat
    decreases v
  {
    match v.data
    case Arr(es) => 1 + HeightOfEntries(es)
    case Obj(es) => 1 + HeightOfEntries(es)
    case _ => 0
  }

  function HeightOfEntries(es: seq<Entry>): nat
    decreases es
  {
    if es == [] then 0
    else
      var h, t := HeightOfEntry(es[0]), HeightOfEntries(es[1..]);
      if h < t then t else h
  }

  function HeightOfEntry(e: Entry): nat
    decreases e
  {
    Height(e.value)
  }

  lemma {:induction false} HeightOfMember(es: seq<Entry>, e: Entry)
    requires e in es
    ensures Height(e.value) <= HeightOfEntries(es)
  {
    if e != es[0] {
      HeightOfMember(es[1..], e);
    }
  }

  lemma {:induction false} FindHeight(es: seq<Entry>, key: Key)
    requires Find(es, key).Some?
    ensures Height(Find(es, key).value) <= HeightOfEntries(es)
  {
    if es[0].key != key {
      FindHeight(es[1..], key);
    }
  }

  // ----- the values the round trip is promised for -----

  predicate NulFree(s: string) {
    forall i :: 0 <= i < |s| ==> s[i] != '\0'
  }

  /** The part of a `std::string` that survives being stored as a C string. */
  function CStr(s: string): (r: string)
    ensures NulFree(r) && r <= s
    ensures NulFree(s) ==> r == s
    ensures |r| < |s| ==> s[|r|] == '\0'
  {
    if s == [] || s[0] == '\0' then [] else [s[0]] + CStr(s[1..])
  }

  /**
   A real-free tree whose maps are well formed, whose strings are proper C strings, whose
   integers fit their 64-bit representation (the most negative one excluded, whose negation
   is undefined in the source) and whose array sizes fit an `int`.
   */
  predicate Writable(v: Value)
    decreases Height(v)
  {
    match v.data
    case Null => true
    case Int(i) => MIN_LARGEST_INT < i <= MAX_LARGEST_INT
    case UInt(u) => u <= MAX_LARGEST_UINT
    case Real(_) => false
    case Str(t) => t.Some? && NulFree(t.value)
    case Bool(_) => true
    case Arr(es) =>
      && Ascending(es)
      && forall e | e in es :: e.key.Index? && e.key.i < MAX_INT && (HeightOfMember(es, e); Writable(e.value))
    case Obj(es) =>
      && Ascending(es)
      && forall e | e in es :: e.key.Name? && NulFree(e.key.s) && (HeightOfMember(es, e); Writable(e.value))
  }

  lemma WritableAt(v: Value, index: nat)
    requires Writable(v) && v.data.Arr?
    ensures Writable(At(v.data.entries, index)) && Height(At(v.data.entries, index)) < Height(v)
  {
  }

  lemma WritableMember(v: Value, i: nat)
    requires Writable(v) && v.data.Obj? && i < |v.data.entries|
    ensures v.data.entries[i].key.Name? && NulFree(v.data.entries[i].key.s)
    ensures Writable(v.data.entries[i].value) && Height(v.data.entries[i].value) < Height(v)
  {
    HeightOfMember(v.data.entries, v.data.entries[i]);
  }

  // ----- comparison up to spans -----

  /** The same tree with every span erased, as a program would have built it. */
  function Plain(v: Value): Value
    decreases Height(v), 0
  {
    match v.data
    case Arr(es) => Value(Arr(PlainEntries(es)), 0, 0)
    case Obj(es) => Value(Obj(PlainEntries(es)), 0, 0)
    case d => Value(d, 0, 0)
  }

  function PlainEntries(es: seq<Entry>): (r: seq<Entry>)
    ensures |r| == |es|
    decreases HeightOfEntries(es), 1 + |es|
  {
    if es == [] then []
    else
      HeightOfMember(es, es[0]);
      [Entry(es[0].key, Plain(es[0].value))] + PlainEntries(es[1..])
  }

  lemma {:induction false} PlainEntriesAppend(es: seq<Entry>, e: Entry)
    ensures PlainEntries(es + [e]) == PlainEntries(es) + [Entry(e.key, Plain(e.value))]
  {
    if es != [] {
      PlainEntriesAppend(es[1..], e);
      assert (es + [e])[1..] == es[1..] + [e];
    }
  }

  lemma {:induction false} PlainEntryAt(es: seq<Entry>, k: nat)
    requires k < |es|
    ensures PlainEntries(es)[k] == Entry(es[k].key, Plain(es[k].value))
  {
    hide Plain;
    if k > 0 {
      PlainEntryAt(es[1..], k - 1);
    }
  }
}

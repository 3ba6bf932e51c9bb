/** The table of group names: entries of a fixed size, kept in order while the pattern
    is compiled, and looked up by binary chop. */
module Names {
  import opened Bytes

  const NO_SUBSTRING: int := -7

  /** A name and its group number. */
  datatype Entry = Entry(number: nat, name: seq<Byte>)

  // ---------- the order of names ----------

  /** The sign of strcmp() on two zero-terminated strings. */
  function Cmp(a: seq<Byte>, b: seq<Byte>): int {
    if a == [] then (if b == [] then 0 else -1)
    else if b == [] then 1
    else if a[0] != b[0] then (if a[0] < b[0] then -1 else 1)
    else Cmp(a[1..], b[1..])
  }

  lemma {:induction false} CmpZero(a: seq<Byte>, b: seq<Byte>)
    ensures Cmp(a, b) == 0 <==> a == b
    ensures Cmp(a, b) == -Cmp(b, a)
    decreases |a|
  {
    if a != [] && b != [] && a[0] == b[0] {
      CmpZero(a[1..], b[1..]);
      assert a == [a[0]] + a[1..] && b == [b[0]] + b[1..];
    }
  }

  lemma {:induction false} CmpTrans(a: seq<Byte>, b: seq<Byte>, c: seq<Byte>)
    requires Cmp(a, b) <= 0 && Cmp(b, c) <= 0
    ensures Cmp(a, c) <= 0 && (Cmp(a, b) < 0 || Cmp(b, c) < 0 ==> Cmp(a, c) < 0)
    decreases |a|
  {
    if a != [] && b != [] && c != [] && a[0] == b[0] == c[0] { CmpTrans(a[1..], b[1..], c[1..]); }
  }

  /** The strings first differ at k: their order is that of these bytes. */
  lemma {:induction false} CmpAt(a: seq<Byte>, b: seq<Byte>, k: nat)
    requires k <= |a| && k <= |b| && a[..k] == b[..k]
    ensures k < |a| && k < |b| && a[k] != b[k] ==> Cmp(a, b) == if a[k] < b[k] then -1 else 1
    ensures k == |a| ==> Cmp(a, b) == if k == |b| then 0 else -1
    ensures k == |b| && k < |a| ==> Cmp(a, b) == 1
    decreases k
  {
    if k > 0 {
      assert a[0] == a[..k][0] == b[..k][0] == b[0];
      assert a[1..][..k - 1] == a[..k][1..] && b[1..][..k - 1] == b[..k][1..];
      CmpAt(a[1..], b[1..], k - 1);
    }
  }

  /** By name, and entries of one name by number. */
  predicate Before(a: Entry, b: Entry) { Cmp(a.name, b.name) < 0 || (a.name == b.name && a.number < b.number) }

  predicate Ordered(es: seq<Entry>) { forall i, j :: 0 <= i < j < |es| ==> Before(es[i], es[j]) }

  /** Every name occurs once. */
  predicate Distinct(es: seq<Entry>) { forall i, j :: 0 <= i < j < |es| ==> es[i].name != es[j].name }

  /** The place for a new entry: behind the names that are not greater. */
  function Place(es: seq<Entry>, name: seq<Byte>): (k: nat)
    ensures k <= |es|
    ensures forall i :: 0 <= i < k ==> Cmp(name, es[i].name) >= 0
    ensures k < |es| ==> Cmp(name, es[k].name) < 0
  {
    if es == [] || Cmp(name, es[0].name) < 0 then 0 else 1 + Place(es[1..], name)
  }

  function Insert(es: seq<Entry>, e: Entry): seq<Entry> {
    var k := Place(es, e.name);
    es[..k] + [e] + es[k..]
  }

  /** Insertion keeps the order, as group numbers grow. */
  lemma InsertOrdered(es: seq<Entry>, e: Entry)
    requires Ordered(es) && forall i :: 0 <= i < |es| ==> es[i].number < e.number
    ensures Ordered(Insert(es, e))
    ensures multiset(Insert(es, e)) == multiset(es) + multiset{e}
  {
    hide Cmp, Place, Insert, Ordered;
    var k, now := Place(es, e.name), Insert(es, e);
    InsertParts(es, e);
    InsertBag(es, e);
    forall i, j | 0 <= i < j < |now| ensures Before(now[i], now[j]) {
      if i == k {
        AfterPlace(es, e, j - 1);
      } else if j == k {
        BeforePlace(es, e, i);
      } else {
        var i', j' := if i < k then i else i - 1, if j < k then j else j - 1;
        assert now[i] == es[i'] && now[j] == es[j'];
        OrderedAt(es, i', j');
      }
    }
    AllBefore(now);
  }

  lemma InsertParts(es: seq<Entry>, e: Entry)
    ensures var k, now := Place(es, e.name), Insert(es, e);
      |now| == |es| + 1 && k <= |es| &&
      (forall i :: 0 <= i < k ==> now[i] == es[i]) && now[k] == e && forall i :: k < i < |now| ==> now[i] == es[i - 1]
  {
    hide Cmp;
  }

  lemma InsertBag(es: seq<Entry>, e: Entry)
    ensures multiset(Insert(es, e)) == multiset(es) + multiset{e}
  {
    hide Place;
    var k := Place(es, e.name);
    assert es == es[..k] + es[k..];
  }

  lemma AllBefore(es: seq<Entry>)
    requires forall i, j :: 0 <= i < j < |es| ==> Before(es[i], es[j])
    ensures Ordered(es)
  {
  }

  lemma OrderedAt(es: seq<Entry>, i: nat, j: nat)
    requires Ordered(es) && i < j < |es|
    ensures Before(es[i], es[j])
  {
  }

  lemma BeforePlace(es: seq<Entry>, e: Entry, i: nat)
    requires i < Place(es, e.name) && es[i].number < e.number
    ensures Before(es[i], e)
  {
    hide Cmp;
    CmpZero(e.name, es[i].name);
    CmpZero(es[i].name, e.name);
  }

  lemma AfterPlace(es: seq<Entry>, e: Entry, i: nat)
    requires Ordered(es) && Place(es, e.name) <= i < |es|
    ensures Before(e, es[i])
  {
    hide Cmp;
    var k := Place(es, e.name);
    OrderedNames(es, k, i);
    CmpTrans(e.name, es[k].name, es[i].name);
  }

  lemma InsertDistinct(es: seq<Entry>, e: Entry)
    requires Distinct(es) && forall i :: 0 <= i < |es| ==> es[i].name != e.name
    ensures Distinct(Insert(es, e))
  {
    var k, now := Place(es, e.name), Insert(es, e);
    assert forall i :: 0 <= i < |now| ==> now[i] == if i < k then es[i] else if i == k then e else es[i - 1];
  }

  /** In an ordered table the names before an entry are not greater, and so on. */
  lemma OrderedNames(es: seq<Entry>, i: nat, j: nat)
    requires Ordered(es) && i <= j < |es|
    ensures Cmp(es[i].name, es[j].name) <= 0
  {
    CmpZero(es[i].name, es[j].name);
  }

  /** A word: what can stand as a name. */
  predicate IsName(n: seq<Byte>) { forall i :: 0 <= i < |n| ==> n[i] != 0 }

  /** The entry e at p: number, name, zero. */
  predicate Holds(t: seq<Byte>, p: nat, size: nat, e: Entry) {
    p + size <= |t| && |e.name| + 3 <= size && IsName(e.name) && Get(t, p) == e.number &&
    t[p + 2..p + 2 + |e.name|] == e.name && t[p + 2 + |e.name|] == 0
  }

  /** Where entry i begins. */
  function Slot(i: nat, size: nat): nat { i * size }

  lemma SlotNext(i: nat, size: nat)
    ensures Slot(0, size) == 0 && Slot(i + 1, size) == Slot(i, size) + size
  {
  }

  lemma {:induction false} SlotUp(i: nat, j: nat, size: nat)
    requires i <= j
    ensures Slot(i, size) <= Slot(j, size)
    decreases j
  {
    if i < j {
      SlotUp(i, j - 1, size);
      SlotNext(j - 1, size);
    }
  }

  lemma SlotFits(i: nat, n: nat, size: nat)
    requires i < n
    ensures Slot(i, size) + size <= Slot(n, size)
  {
    hide Slot;
    SlotNext(i, size);
    SlotUp(i + 1, n, size);
  }

  predicate HoldsAll(t: seq<Byte>, size: nat, es: seq<Entry>) {
    Slot(|es|, size) <= |t| && forall i :: 0 <= i < |es| ==> Holds(t, Slot(i, size), size, es[i])
  }

  lemma HoldsAt(t: seq<Byte>, size: nat, es: seq<Entry>, i: nat)
    requires HoldsAll(t, size, es) && i < |es|
    ensures Holds(t, Slot(i, size), size, es[i]) && Slot(i, size) + size <= Slot(|es|, size) <= |t|
  {
    SlotFits(i, |es|, size);
  }

  /** Entries from k on have been moved up by one, with a new one in the gap. */
  lemma MovedUp(t: seq<Byte>, u: seq<Byte>, size: nat, es: seq<Entry>, k: nat, e: Entry)
    requires HoldsAll(t, size, es) && k <= |es| && Slot(|es| + 1, size) <= |t| == |u| && Holds(u, Slot(k, size), size, e)
    requires Slot(k, size) <= |t| && u[..Slot(k, size)] == t[..Slot(k, size)]
    requires var lo, hi := Slot(k, size), Slot(|es|, size); lo <= hi && hi + size <= |u| && u[lo + size..hi + size] == t[lo..hi]
    ensures HoldsAll(u, size, es[..k] + [e] + es[k..])
  {
    hide Slot, Holds, HoldsAll;
    var now := es[..k] + [e] + es[k..];
    forall i | 0 <= i < |now| ensures Holds(u, Slot(i, size), size, now[i]) {
      if i < k {
        HoldsAt(t, size, es, i);
        SlotFits(i, k, size);
        StillHolds(t, u, Slot(i, size), Slot(k, size), size, es[i]);
      } else if i > k {
        HoldsAt(t, size, es, i - 1);
        SlotNext(i - 1, size);
        SlotUp(k, i - 1, size);
        NowHolds(t, u, Slot(i - 1, size), Slot(k, size), Slot(|es|, size), size, es[i - 1]);
      }
    }
    AllHold(u, size, now);
  }

  lemma AllHold(t: seq<Byte>, size: nat, es: seq<Entry>)
    requires Slot(|es|, size) <= |t| && forall i :: 0 <= i < |es| ==> Holds(t, Slot(i, size), size, es[i])
    ensures HoldsAll(t, size, es)
  {
  }

  lemma StillHolds(t: seq<Byte>, u: seq<Byte>, p: nat, lo: nat, size: nat, e: Entry)
    requires Holds(t, p, size, e) && p + size <= lo <= |t| && lo <= |u| && u[..lo] == t[..lo]
    ensures Holds(u, p, size, e)
  {
    Within(u, 0, lo, p, p + size);
    Within(t, 0, lo, p, p + size);
    SameHolds(t, p, u, p, size, e);
  }

  lemma NowHolds(t: seq<Byte>, u: seq<Byte>, p: nat, lo: nat, hi: nat, size: nat, e: Entry)
    requires Holds(t, p, size, e) && lo <= p && p + size <= hi <= |t| && hi + size <= |u| && u[lo + size..hi + size] == t[lo..hi]
    ensures Holds(u, p + size, size, e)
  {
    Within(u, lo + size, hi - lo, p - lo, p - lo + size);
    Within(t, lo, hi - lo, p - lo, p - lo + size);
    SameHolds(t, p, u, p + size, size, e);
  }

  lemma Within(s: seq<Byte>, q: nat, n: nat, a: nat, b: nat)
    requires a <= b <= n && q + n <= |s|
    ensures s[q..q + n][a..b] == s[q + a..q + b]
  {
    var x, y, z := s[q..q + n][a..b], s[q + a..q + b], s[q..q + n];
    forall k | 0 <= k < |x| ensures x[k] == y[k] {
      assert z[a + k] == s[q + (a + k)];
    }
  }

  lemma SameHolds(t: seq<Byte>, p: nat, u: seq<Byte>, q: nat, size: nat, e: Entry)
    requires Holds(t, p, size, e) && q + size <= |u| && u[q..q + size] == t[p..p + size]
    ensures Holds(u, q, size, e)
  {
    Within(u, q, size, 2, 2 + |e.name|);
    Within(t, p, size, 2, 2 + |e.name|);
    assert u[q] == u[q..q + size][0] && u[q + 1] == u[q..q + size][1];
    assert t[p] == t[p..p + size][0] && t[p + 1] == t[p..p + size][1];
    assert u[q + 2 + |e.name|] == u[q..q + size][2 + |e.name|] && t[p + 2 + |e.name|] == t[p..p + size][2 + |e.name|];
  }

  /** Looking a name up: no entry before bot or from top on has it. */
  predicate Outside(es: seq<Entry>, name: seq<Byte>, bot: nat, top: nat) {
    forall i :: 0 <= i < |es| && !(bot <= i < top) ==> es[i].name != name
  }

  lemma Halve(es: seq<Entry>, name: seq<Byte>, bot: nat, mid: nat, top: nat)
    requires Ordered(es) && Outside(es, name, bot, top) && bot <= mid < top <= |es| && Cmp(name, es[mid].name) != 0
    ensures Outside(es, name, if Cmp(name, es[mid].name) > 0 then mid + 1 else bot, if Cmp(name, es[mid].name) > 0 then top else mid)
  {
    hide Cmp;
    forall i | bot <= i < top && (if Cmp(name, es[mid].name) > 0 then i <= mid else mid <= i) ensures es[i].name != name {
      if es[i].name == name {
        if i <= mid { OrderedNames(es, i, mid); } else { OrderedNames(es, mid, i); }
        CmpZero(name, es[mid].name);
      }
    }
  }

  /** All the entries of one name stand together. */
  lemma Together(es: seq<Entry>, name: seq<Byte>, i: nat, j: nat, k: nat)
    requires Ordered(es) && i <= j <= k < |es| && es[i].name == name == es[k].name
    ensures es[j].name == name
  {
    hide Cmp, Ordered;
    OrderedNames(es, i, j);
    OrderedNames(es, j, k);
    CmpZero(name, es[j].name);
  }

  /** Exactly the entries first to last have the name. */
  predicate Range(es: seq<Entry>, name: seq<Byte>, first: nat, last: nat) {
    first <= last < |es| && forall i :: 0 <= i < |es| ==> (es[i].name == name <==> first <= i <= last)
  }

  lemma RangeIs(es: seq<Entry>, name: seq<Byte>, first: nat, last: nat)
    requires Ordered(es) && first <= last < |es| && es[first].name == name == es[last].name
    requires (first > 0 ==> es[first - 1].name != name) && (last + 1 < |es| ==> es[last + 1].name != name)
    ensures Range(es, name, first, last)
  {
    hide Ordered;
    forall i | 0 <= i < |es| ensures es[i].name == name <==> first <= i <= last {
      if first <= i <= last {
        Together(es, name, first, i, last);
      } else if es[i].name == name {
        if i < first { Together(es, name, i, first - 1, first); } else { Together(es, name, last, last + 1, i); }
      }
    }
  }

  /** A string and an entry compared byte by byte, as strcmp() does. */
  lemma NameAt(t: seq<Byte>, p: nat, size: nat, e: Entry, k: nat)
    requires Holds(t, p, size, e) && k <= |e.name|
    ensures t[p + 2 + k] == (if k < |e.name| then e.name[k] else 0) && (k < |e.name| ==> e.name[k] != 0)
  {
    if k < |e.name| { assert t[p + 2..p + 2 + |e.name|][k] == t[p + 2 + k]; }
  }

  class NameTable {
    const table: array<Byte>
    const size: nat
    var found: nat
    ghost var entries: seq<Entry>

    ghost predicate Valid()
      reads this, table
    {
      found == |entries| && HoldsAll(table[..], size, entries) && Ordered(entries)
    }

    /** An empty table for n names of up to longest bytes. */
    constructor (n: nat, longest: nat)
      ensures Valid() && entries == [] && size == longest + 3 && table.Length == Slot(n, size) && fresh(table)
    {
      size, found, entries := longest + 3, 0, [];
      table := new Byte[Slot(n, longest + 3)](_ => 0);
    }

    /** strcmp() of a string and the name of an entry at p. */
    method StrCmp(name: seq<Byte>, p: nat, ghost e: Entry) returns (c: int)
      requires IsName(name) && Holds(table[..], p, size, e)
      ensures c == Cmp(name, e.name)
    {
      var k := 0;
      while true
        invariant k <= |name| && k <= |e.name| && name[..k] == e.name[..k]
        decreases |name| - k
      {
        NameAt(table[..], p, size, e, k);
        CmpAt(name, e.name, k);
        var a, b := if k < |name| then name[k] else 0, table[p + 2 + k];
        if a != b { return if a < b then -1 else 1; }
        if a == 0 { return 0; }
        assert name[..k + 1] == name[..k] + [name[k]] && e.name[..k + 1] == e.name[..k] + [e.name[k]];
        k := k + 1;
      }
    }

    /** memcmp() over the length of name, and a look at the byte behind: less, the same, or
        greater, where a longer name that begins alike is greater. */
    method Compare(name: seq<Byte>, p: nat, ghost e: Entry) returns (crc: int)
      requires IsName(name) && Holds(table[..], p, size, e) && |name| + 3 <= size
      ensures crc == Cmp(name, e.name)
    {
      crc := 0;
      var k := 0;
      while k < |name| && crc == 0
        invariant k <= |name|
        invariant if crc == 0 then k <= |e.name| && name[..k] == e.name[..k] else crc == Cmp(name, e.name)
        decreases |name| - k
      {
        if k <= |e.name| {
          NameAt(table[..], p, size, e, k);
          CmpAt(name, e.name, k);
        }
        var b := table[p + 2 + k];
        if name[k] != b {
          crc := if name[k] < b then -1 else 1;
        } else {
          assert name[..k + 1] == name[..k] + [name[k]] && e.name[..k + 1] == e.name[..k] + [e.name[k]];
        }
        k := k + 1;
      }
      if crc == 0 {
        NameAt(table[..], p, size, e, |name|);
        CmpAt(name, e.name, |name|);
        if table[p + 2 + |name|] != 0 { crc := -1; }
      }
    }

    /** A (?<name>...) in the real compile, for the group number: false is ERR43, a second
        use of the name without PCRE_DUPNAMES. */
    method Add(name: seq<Byte>, number: nat, dupnames: bool) returns (ok: bool)
      requires Valid() && IsName(name) && |name| + 3 <= size && number < 0x1_0000 && Slot(found + 1, size) <= table.Length
      requires forall i :: 0 <= i < |entries| ==> entries[i].number < number
      modifies this, table
      ensures Valid()
      ensures ok <==> dupnames || forall i :: 0 <= i < |old(entries)| ==> old(entries)[i].name != name
      ensures entries == if ok then Insert(old(entries), Entry(number, name)) else old(entries)
      ensures old(Distinct(entries)) && !dupnames ==> Distinct(entries)
    {
      hide Cmp, Slot, Holds, HoldsAll, Ordered, Insert, Distinct;
      var i, slot: nat := 0, 0;
      SlotNext(0, size);
      while i < found
        invariant Valid() && entries == old(entries) && table[..] == old(table[..])
        invariant i <= found && slot == Slot(i, size)
        invariant forall j :: 0 <= j < i ==> Cmp(name, entries[j].name) >= 0
        invariant !dupnames ==> forall j :: 0 <= j < i ==> entries[j].name != name
      {
        HoldsAt(table[..], size, entries, i);
        var crc := Compare(name, slot, entries[i]);
        CmpZero(name, entries[i].name);
        if crc == 0 && !dupnames { return false; }
        if crc < 0 { break; }
        SlotNext(i, size);
        i, slot := i + 1, slot + size;
      }
      PlaceIs(entries, name, i);
      if i < found && !dupnames { NoneBehind(entries, name, i); }
      Write(i, slot, name, number);
      ok := true;
    }

    /** Moves the entries from i on up by one, and fills the slot. */
    method Write(i: nat, slot: nat, name: seq<Byte>, number: nat)
      requires Valid() && IsName(name) && |name| + 3 <= size && number < 0x1_0000 && Slot(found + 1, size) <= table.Length
      requires forall j :: 0 <= j < |entries| ==> entries[j].number < number
      requires slot == Slot(i, size) && i == Place(entries, name)
      modifies this, table
      ensures Valid() && entries == Insert(old(entries), Entry(number, name))
      ensures old(Distinct(entries)) && (forall j :: 0 <= j < |old(entries)| ==> old(entries)[j].name != name) ==> Distinct(entries)
    {
      hide Cmp, Slot, HoldsAll, Ordered, Insert, Distinct;
      ghost var es, e, was := entries, Entry(number, name), table[..];
      SlotNext(found, size);
      SlotUp(i, found, size);
      SlotFits(i, found + 1, size);
      MoveUp(slot, Slot(found, size));
      Fill(slot, name, number);
      MovedUp(was, table[..], size, es, i, e);
      InsertIs(es, e);
      InsertOrdered(es, e);
      if Distinct(es) && forall j :: 0 <= j < |es| ==> es[j].name != name { InsertDistinct(es, e); }
      entries, found := Insert(es, e), found + 1;
    }

    /** memmove() by one entry. */
    method MoveUp(slot: nat, end: nat)
      requires slot <= end && end + size <= table.Length
      modifies table
      ensures table[..slot] == old(table[..slot]) && table[slot + size..end + size] == old(table[slot..end])
    {
      forall q | slot <= q < end { table[q + size] := table[q]; }
    }

    method Fill(slot: nat, name: seq<Byte>, number: nat)
      requires IsName(name) && |name| + 3 <= size && number < 0x1_0000 && slot + size <= table.Length
      modifies table
      ensures Holds(table[..], slot, size, Entry(number, name))
      ensures table[..slot] == old(table[..slot]) && table[slot + size..] == old(table[slot + size..])
    {
      forall k | 0 <= k < |name| { table[slot + 2 + k] := name[k]; }
      table[slot], table[slot + 1], table[slot + 2 + |name|] := number / 256, number % 256, 0;
      assert table[..][slot + 2..slot + 2 + |name|] == name;
    }

    /** pcre_get_stringnumber. */
    method GetStringNumber(name: seq<Byte>) returns (n: int)
      requires Valid() && IsName(name)
      ensures n == NO_SUBSTRING <==> forall i :: 0 <= i < |entries| ==> entries[i].name != name
      ensures n != NO_SUBSTRING ==> n >= 0 && Entry(n, name) in entries
      ensures Distinct(entries) ==> forall i :: 0 <= i < |entries| && entries[i].name == name ==> n == entries[i].number
    {
      var mid := Chop(name);
      if mid < 0 { return NO_SUBSTRING; }
      hide Cmp, Slot, Ordered;
      HoldsAt(table[..], size, entries, mid);
      var entry := Slot(mid, size);
      assert entries[mid] == Entry(entries[mid].number, name);
      return table[entry] as int * 256 + table[entry + 1];
    }

    /** The binary chop: an entry with the name, or -1. */
    method Chop(name: seq<Byte>) returns (mid: int)
      requires Valid() && IsName(name)
      ensures mid == -1 || 0 <= mid < |entries|
      ensures if mid < 0 then forall i :: 0 <= i < |entries| ==> entries[i].name != name else entries[mid].name == name
    {
      hide Cmp, Slot, Ordered, HoldsAll, Holds;
      var bot, top: nat := 0, found;
      while top > bot
        invariant bot <= top <= found && Outside(entries, name, bot, top)
      {
        mid := (top + bot) / 2;
        HoldsAt(table[..], size, entries, mid);
        var c := StrCmp(name, Slot(mid, size), entries[mid]);
        CmpZero(name, entries[mid].name);
        if c == 0 { return; }
        Halve(entries, name, bot, mid, top);
        if c > 0 { bot := mid + 1; } else { top := mid; }
      }
      return -1;
    }

    /** pcre_get_stringtable_entries: the first and the last entry of the name. */
    method GetStringTableEntries(name: seq<Byte>) returns (rc: int, first: nat, last: nat)
      requires Valid() && IsName(name)
      ensures rc == NO_SUBSTRING || rc == size
      ensures rc == NO_SUBSTRING <==> forall i :: 0 <= i < |entries| ==> entries[i].name != name
      ensures rc == size ==> Range(entries, name, first, last)
    {
      hide Cmp, Slot, Ordered, HoldsAll, Holds;
      var mid := Chop(name);
      if mid < 0 { return NO_SUBSTRING, 0, 0; }
      first, last := mid, mid;
      while first > 0
        invariant first <= mid && entries[first].name == name
      {
        HoldsAt(table[..], size, entries, first - 1);
        CmpZero(name, entries[first - 1].name);
        var c := StrCmp(name, Slot(first - 1, size), entries[first - 1]);
        if c != 0 { break; }
        first := first - 1;
      }
      while last < found - 1
        invariant mid <= last < found && entries[last].name == name
      {
        HoldsAt(table[..], size, entries, last + 1);
        CmpZero(name, entries[last + 1].name);
        var c := StrCmp(name, Slot(last + 1, size), entries[last + 1]);
        if c != 0 { break; }
        last := last + 1;
      }
      RangeIs(entries, name, first, last);
      rc := size;
    }

    /** get_first_set: the number of the first group of that name which is set, and if none
        is set that of the first. */
    method GetFirstSet(name: seq<Byte>, dupnames: bool, ovector: seq<int>) returns (n: int)
      requires Valid() && IsName(name) && (!dupnames ==> Distinct(entries))
      requires forall i :: 0 <= i < |entries| ==> 2 * entries[i].number < |ovector|
      ensures n == NO_SUBSTRING <==> forall i :: 0 <= i < |entries| ==> entries[i].name != name
      ensures n != NO_SUBSTRING ==> n >= 0 && Entry(n, name) in entries
      ensures n != NO_SUBSTRING ==> FirstSet(entries, name, ovector, n)
    {
      if !dupnames {
        n := GetStringNumber(name);
        if n != NO_SUBSTRING { OnlySet(entries, name, ovector, n); }
        return;
      }
      var rc, first, last := GetStringTableEntries(name);
      if rc <= 0 { return rc; }
      RangeHas(entries, name, first, last);
      n := FirstOf(name, first, last, ovector);
    }

    /** Its loop over the entries of one name. */
    method FirstOf(name: seq<Byte>, first: nat, last: nat, ovector: seq<int>) returns (n: nat)
      requires Valid() && Range(entries, name, first, last)
      requires forall i :: 0 <= i < |entries| ==> 2 * entries[i].number < |ovector|
      ensures Entry(n, name) in entries && FirstSet(entries, name, ovector, n)
    {
      hide Cmp, Slot, Ordered, HoldsAll, FirstSet, Range;
      RangeHas(entries, name, first, last);
      var at := first;
      while at <= last
        invariant first <= at <= last + 1
        invariant forall i :: first <= i < at ==> ovector[2 * entries[i].number] < 0
      {
        n := NumberAt(at);
        if ovector[2 * n] >= 0 {
          IsFirstSet(entries, name, ovector, first, last, at);
          return;
        }
        at := at + 1;
      }
      n := NumberAt(first);
      IsFirstSet(entries, name, ovector, first, last, first);
    }

    method NumberAt(i: nat) returns (n: nat)
      requires Valid() && i < |entries|
      ensures n == entries[i].number
    {
      HoldsAt(table[..], size, entries, i);
      n := Get(table[..], Slot(i, size));
    }
  }

  /** Of the groups with the name, n is the lowest that is set, or the lowest of all when
      none is set. */
  predicate FirstSet(es: seq<Entry>, name: seq<Byte>, ovector: seq<int>, n: nat)
    requires 2 * n < |ovector| && forall i :: 0 <= i < |es| ==> 2 * es[i].number < |ovector|
  {
    forall i :: 0 <= i < |es| && es[i].name == name ==>
      if ovector[2 * n] >= 0 then ovector[2 * es[i].number] >= 0 ==> n <= es[i].number
      else ovector[2 * es[i].number] < 0 && n <= es[i].number
  }

  lemma RangeHas(es: seq<Entry>, name: seq<Byte>, first: nat, last: nat)
    requires Range(es, name, first, last)
    ensures first <= last < |es| && es[first].name == name
  {
  }

  lemma OnlySet(es: seq<Entry>, name: seq<Byte>, ovector: seq<int>, n: nat)
    requires forall i :: 0 <= i < |es| ==> 2 * es[i].number < |ovector|
    requires Entry(n, name) in es && forall i :: 0 <= i < |es| && es[i].name == name ==> n == es[i].number
    ensures 2 * n < |ovector| && FirstSet(es, name, ovector, n)
  {
    var i :| 0 <= i < |es| && es[i] == Entry(n, name);
  }

  lemma IsFirstSet(es: seq<Entry>, name: seq<Byte>, ovector: seq<int>, first: nat, last: nat, at: nat)
    requires Ordered(es) && Range(es, name, first, last) && first <= at <= last
    requires forall i :: 0 <= i < |es| ==> 2 * es[i].number < |ovector|
    requires if ovector[2 * es[at].number] >= 0 then forall i :: first <= i < at ==> ovector[2 * es[i].number] < 0
      else at == first && forall i :: first <= i <= last ==> ovector[2 * es[i].number] < 0
    ensures Entry(es[at].number, name) in es && FirstSet(es, name, ovector, es[at].number)
  {
    assert es[at] == Entry(es[at].number, name);
    forall i | 0 <= i < |es| && es[i].name == name && at < i ensures es[at].number < es[i].number {
      assert Before(es[at], es[i]);
      CmpZero(name, name);
    }
  }

  lemma PlaceIs(es: seq<Entry>, name: seq<Byte>, k: nat)
    requires k <= |es| && (forall i :: 0 <= i < k ==> Cmp(name, es[i].name) >= 0) && (k < |es| ==> Cmp(name, es[k].name) < 0)
    ensures k == Place(es, name)
  {
    hide Cmp;
  }

  lemma NoneBehind(es: seq<Entry>, name: seq<Byte>, k: nat)
    requires Ordered(es) && k < |es| && Cmp(name, es[k].name) < 0
    ensures forall i :: k <= i < |es| ==> es[i].name != name
  {
    hide Cmp, Ordered;
    forall i | k <= i < |es| ensures es[i].name != name {
      OrderedNames(es, k, i);
      CmpTrans(name, es[k].name, es[i].name);
      CmpZero(name, es[i].name);
    }
  }

  lemma InsertIs(es: seq<Entry>, e: Entry)
    ensures var k := Place(es, e.name); Insert(es, e) == es[..k] + [e] + es[k..] && |Insert(es, e)| == |es| + 1
  {
    hide Place;
  }
}

/** A directory file as bytes: 20-byte records, a 32-bit inumber (least significant byte
    first, as the machine stores it) and a zero-padded name (include/dir.h:33-44). What the
    scans of src/disque/dir.c find, and the finite map they stand for. */
module Entries {
  import opened Bytes
  import opened Codec
  import opened FileView
  import Ifile

  const ENTRY_SIZE: nat := 20
  const ENTRYMAXLENGTH: nat := 16
  const MAX_ENTRIES: nat := 3072 // CAPACITY / ENTRY_SIZE

  // -------------------------------------------------------------------- records

  function Number(a: seq<byte>, at: nat): nat
    requires at + 4 <= |a|
  {
    a[at] as nat + 256 * a[at + 1] as nat + 65536 * a[at + 2] as nat + 16777216 * a[at + 3] as nat
  }

  /** The inumber of record `k`; 0 marks a free record. */
  function Inum(a: seq<byte>, k: nat): nat
    requires 20 * k + 20 <= |a|
  {
    Number(a, 20 * k)
  }

  function EntName(a: seq<byte>, k: nat): seq<byte>
    requires 20 * k + 20 <= |a|
  {
    CString(a, 20 * k + 4, 20 * k + 20)
  }

  predicate Names(a: seq<byte>, k: nat, name: seq<byte>)
    requires 20 * k + 20 <= |a|
  {
    Inum(a, k) != 0 && EntName(a, k) == name
  }

  /** A C string. */
  predicate CName(name: seq<byte>) {
    forall k | 0 <= k < |name| :: name[k] != 0
  }

  /** `strncpy` then the terminator: at most 15 characters are kept. */
  function Stored(name: seq<byte>): (r: seq<byte>)
    ensures r <= name && |r| < ENTRYMAXLENGTH && (r == name || |r| == ENTRYMAXLENGTH - 1)
  {
    if |name| < ENTRYMAXLENGTH then name else name[..ENTRYMAXLENGTH - 1]
  }

  function NameField(name: seq<byte>): (r: seq<byte>)
    ensures |r| == ENTRYMAXLENGTH
  {
    Stored(name) + seq(ENTRYMAXLENGTH - |Stored(name)|, k => 0)
  }

  function EntryBytes(inumber: nat, name: seq<byte>): (r: seq<byte>)
    requires inumber < 65536
    ensures |r| == ENTRY_SIZE
  {
    [inumber % 256, inumber / 256, 0, 0] + NameField(name)
  }

  function NullEntry(): (r: seq<byte>)
    ensures |r| == ENTRY_SIZE
  {
    seq(ENTRY_SIZE, k => 0)
  }

  lemma {:induction false} CStringSame(a: seq<byte>, b: seq<byte>, k: nat, end: nat)
    requires k <= end <= |a| && end <= |b| && a[k..end] == b[k..end]
    ensures CString(a, k, end) == CString(b, k, end)
    decreases end - k
  {
    if k == end {
    } else {
      assert a[k] == a[k..end][0] && b[k] == b[k..end][0];
      assert a[k + 1..end] == a[k..end][1..] && b[k + 1..end] == b[k..end][1..];
      CStringSame(a, b, k + 1, end);
    }
  }

  /** A record written in place is read back; the others are as they were. */
  lemma RecordWritten(a: seq<byte>, k: nat, entry: seq<byte>, j: nat)
    requires |entry| == ENTRY_SIZE && 20 * k + 20 <= |a| && 20 * j + 20 <= |a|
    ensures var a' := Ifile.Splice(a, 20 * k, entry);
            && (j != k ==> Inum(a', j) == Inum(a, j) && EntName(a', j) == EntName(a, j))
            && Inum(a', k) == Number(entry, 0) && EntName(a', k) == CString(entry, 4, 20)
  {
    var a' := Ifile.Splice(a, 20 * k, entry);
    if j != k {
      SameRecord(a, a', j);
    }
    assert a'[20 * k..20 * k + 20] == entry;
    RecordIs(a', k, entry);
  }

  lemma SameRecord(a: seq<byte>, b: seq<byte>, j: nat)
    requires 20 * j + 20 <= |a| == |b| && forall p | 20 * j <= p < 20 * j + 20 :: a[p] == b[p]
    ensures Inum(b, j) == Inum(a, j) && EntName(b, j) == EntName(a, j)
  {
    assert b[20 * j + 4..20 * j + 20] == a[20 * j + 4..20 * j + 20];
    CStringSame(b, a, 20 * j + 4, 20 * j + 20);
  }

  lemma RecordIs(a: seq<byte>, k: nat, entry: seq<byte>)
    requires |entry| == ENTRY_SIZE && 20 * k + 20 <= |a| && entry == a[20 * k..20 * k + 20]
    ensures Inum(a, k) == Number(entry, 0) && EntName(a, k) == CString(entry, 4, 20)
  {
    NumberShift(a, 20 * k, entry);
    CStringShift(a, 20 * k, entry, 4);
  }

  lemma NumberShift(a: seq<byte>, at: nat, entry: seq<byte>)
    requires 4 <= |entry| && at + |entry| <= |a| && entry == a[at..at + |entry|]
    ensures Number(a, at) == Number(entry, 0)
  {
  }

  lemma {:induction false} CStringShift(a: seq<byte>, at: nat, entry: seq<byte>, k: nat)
    requires k <= |entry| && at + |entry| <= |a|
    requires forall j | 0 <= j < |entry| :: entry[j] == a[at + j]
    ensures CString(a, at + k, at + |entry|) == CString(entry, k, |entry|)
    decreases |entry| - k
  {
    if k == |entry| {
    } else {
      assert entry[k] == a[at + k];
      CStringShift(a, at, entry, k + 1);
    }
  }

  /** `a'` is `a` with record `k` set to `number` and `name`. */
  ghost predicate RecordSet(a: seq<byte>, a': seq<byte>, k: nat, number: nat, name: seq<byte>) {
    && |a| == |a'| == CAPACITY && k < MAX_ENTRIES
    && (forall j: nat | j < MAX_ENTRIES && j != k :: Inum(a', j) == Inum(a, j) && EntName(a', j) == EntName(a, j))
    && Inum(a', k) == number && EntName(a', k) == name
  }

  lemma SpliceSets(a: seq<byte>, k: nat, entry: seq<byte>)
    requires |a| == CAPACITY && |entry| == ENTRY_SIZE && k < MAX_ENTRIES
    ensures RecordSet(a, Ifile.Splice(a, 20 * k, entry), k, Number(entry, 0), CString(entry, 4, 20))
  {
    forall j: nat | j < MAX_ENTRIES
      ensures var a' := Ifile.Splice(a, 20 * k, entry);
              && (j != k ==> Inum(a', j) == Inum(a, j) && EntName(a', j) == EntName(a, j))
              && Inum(a', k) == Number(entry, 0) && EntName(a', k) == CString(entry, 4, 20)
    {
      RecordWritten(a, k, entry, j);
    }
  }

  lemma EntryBytesRead(inumber: nat, name: seq<byte>)
    requires inumber < 65536 && CName(name)
    ensures Number(EntryBytes(inumber, name), 0) == inumber
    ensures CString(EntryBytes(inumber, name), 4, 20) == Stored(name)
    ensures EntryBytes(inumber, name)[..2] == [inumber % 256, inumber / 256]
    ensures EntryBytes(inumber, name)[4..4 + |Stored(name)|] == Stored(name)
    ensures forall k | k in {2, 3} || 4 + |Stored(name)| <= k < 20 :: EntryBytes(inumber, name)[k] == 0
  {
    var e := EntryBytes(inumber, name);
    assert e[4..4 + |Stored(name)|] == Stored(name);
    CStringIs(e, 4, 20, Stored(name));
  }

  // ----------------------------------------------------------------------- scans

  /** The first of the records `k..n` that is in use under `name`; `n` if there is none. */
  function FindFrom(a: seq<byte>, k: nat, n: nat, name: seq<byte>): (r: nat)
    requires k <= n && 20 * n <= |a|
    ensures k <= r <= n
    ensures forall j | k <= j < r :: !Names(a, j, name)
    ensures r < n ==> Names(a, r, name)
    decreases n - k
  {
    if k == n then n else if Names(a, k, name) then k else FindFrom(a, k + 1, n, name)
  }

  /** The first free record among `k..n`; `n`, the place to append, if there is none. */
  function FreeFrom(a: seq<byte>, k: nat, n: nat): (r: nat)
    requires k <= n && 20 * n <= |a|
    ensures k <= r <= n
    ensures forall j | k <= j < r :: Inum(a, j) != 0
    ensures r < n ==> Inum(a, r) == 0
    decreases n - k
  {
    if k == n then n else if Inum(a, k) == 0 then k else FreeFrom(a, k + 1, n)
  }

  lemma {:induction false} FindIs(a: seq<byte>, k: nat, n: nat, name: seq<byte>, r: nat)
    requires k <= r <= n && 20 * n <= |a|
    requires forall j | k <= j < r :: !Names(a, j, name)
    requires r < n ==> Names(a, r, name)
    ensures FindFrom(a, k, n, name) == r
    decreases r - k
  {
    if k == r {
    } else {
      FindIs(a, k + 1, n, name, r);
    }
  }

  /** What a lookup over the first `n` records answers: the inumber, 0 if there is none. */
  function LookupIn(a: seq<byte>, n: nat, name: seq<byte>): nat
    requires 20 * n <= |a|
  {
    var k := FindFrom(a, 0, n, name);
    if k == n then 0 else Inum(a, k)
  }

  /** How many whole records a file of `taille` blocks holds. */
  function Whole(taille: nat): nat {
    taille * 512 / 20
  }

  // --------------------------------------------------------------------- the map

  /** Every record in use lies within the first `n`. */
  ghost predicate UsedWithin(a: seq<byte>, n: nat)
    requires |a| == CAPACITY
  {
    forall k: nat | n <= k < MAX_ENTRIES :: Inum(a, k) == 0
  }

  ghost predicate UniqueNames(a: seq<byte>)
    requires |a| == CAPACITY
  {
    forall j: nat, k: nat | j < k < MAX_ENTRIES && Inum(a, j) != 0 && Inum(a, k) != 0 :: EntName(a, j) != EntName(a, k)
  }

  /** The directory as a partial function from names to inumbers, 0 for none. */
  function Lookup(a: seq<byte>, name: seq<byte>): nat
    requires |a| == CAPACITY
  {
    LookupIn(a, MAX_ENTRIES, name)
  }

  ghost function NamesOf(a: seq<byte>): set<seq<byte>>
    requires |a| == CAPACITY
  {
    set k: nat | k < MAX_ENTRIES && Inum(a, k) != 0 :: EntName(a, k)
  }

  /** The finite map the directory stands for. */
  ghost function Entries(a: seq<byte>): map<seq<byte>, nat>
    requires |a| == CAPACITY
  {
    map name | name in NamesOf(a) :: Lookup(a, name)
  }

  lemma LookupBound(a: seq<byte>, n: nat, name: seq<byte>)
    requires |a| == CAPACITY && n <= MAX_ENTRIES && UsedWithin(a, n)
    ensures LookupIn(a, n, name) == Lookup(a, name)
  {
    var r := FindFrom(a, 0, n, name);
    if r < n {
      FindIs(a, 0, MAX_ENTRIES, name, r);
    } else {
      forall j | 0 <= j < MAX_ENTRIES ensures !Names(a, j, name) {
      }
      FindIs(a, 0, MAX_ENTRIES, name, MAX_ENTRIES);
    }
  }

  lemma InEntries(a: seq<byte>, name: seq<byte>)
    requires |a| == CAPACITY
    ensures name in Entries(a) <==> Lookup(a, name) != 0
    ensures name in Entries(a) ==> Entries(a)[name] == Lookup(a, name)
  {
    var r := FindFrom(a, 0, MAX_ENTRIES, name);
    if name in NamesOf(a) {
      var k: nat :| k < MAX_ENTRIES && Inum(a, k) != 0 && EntName(a, k) == name;
      assert Names(a, k, name);
    }
    if r < MAX_ENTRIES {
      assert EntName(a, r) in NamesOf(a);
    }
  }

  /** Maps that answer every lookup alike are equal. */
  lemma EntriesEqual(a: seq<byte>, m: map<seq<byte>, nat>)
    requires |a| == CAPACITY
    requires forall name :: (name in m <==> Lookup(a, name) != 0) && (name in m ==> m[name] == Lookup(a, name))
    ensures Entries(a) == m
  {
    forall name ensures name in Entries(a) <==> name in m {
      InEntries(a, name);
    }
    forall name | name in m ensures Entries(a)[name] == m[name] {
      InEntries(a, name);
    }
  }

  // ------------------------------------------------------- adding and removing

  /** The bytes after `add_entry` has written its record. */
  function Added(a: seq<byte>, n: nat, inumber: nat, name: seq<byte>): (r: seq<byte>)
    requires |a| == CAPACITY && 20 * n <= |a| && inumber < 65536
    requires 20 * FreeFrom(a, 0, n) + 20 <= |a|
    ensures |r| == CAPACITY
  {
    Ifile.Splice(a, 20 * FreeFrom(a, 0, n), EntryBytes(inumber, name))
  }

  /** The bytes after `del_entry` has cleared record `k`. */
  function Cleared(a: seq<byte>, k: nat): (r: seq<byte>)
    requires |a| == CAPACITY && 20 * k + 20 <= |a|
    ensures |r| == CAPACITY
  {
    Ifile.Splice(a, 20 * k, NullEntry())
  }

  lemma AddedSets(a: seq<byte>, n: nat, inumber: nat, name: seq<byte>)
    requires |a| == CAPACITY && n <= MAX_ENTRIES && CName(name)
    requires inumber < 65536 && FreeFrom(a, 0, n) < MAX_ENTRIES
    ensures RecordSet(a, Added(a, n, inumber, name), FreeFrom(a, 0, n), inumber, Stored(name))
  {
    EntryBytesRead(inumber, name);
    SpliceSets(a, FreeFrom(a, 0, n), EntryBytes(inumber, name));
  }

  lemma ClearedSets(a: seq<byte>, k: nat)
    requires |a| == CAPACITY && k < MAX_ENTRIES
    ensures RecordSet(a, Cleared(a, k), k, 0, [])
  {
    SpliceSets(a, k, NullEntry());
  }

  lemma SetNames(a: seq<byte>, a': seq<byte>, k: nat, number: nat, name: seq<byte>, m: seq<byte>)
    requires RecordSet(a, a', k, number, name)
    ensures forall j: nat | j < MAX_ENTRIES ::
              Names(a', j, m) <==> if j == k then number != 0 && m == name else Names(a, j, m)
  {
  }

  /** The first match decides, so the answer is fixed by who is named and who comes first. */
  lemma SetFind(a: seq<byte>, a': seq<byte>, k: nat, number: nat, name: seq<byte>, m: seq<byte>, r: nat)
    requires RecordSet(a, a', k, number, name) && r <= MAX_ENTRIES
    requires forall j: nat | j < r :: if j == k then number == 0 || m != name else !Names(a, j, m)
    requires r < MAX_ENTRIES ==> if r == k then number != 0 && m == name else Names(a, r, m)
    ensures FindFrom(a', 0, MAX_ENTRIES, m) == r
  {
    SetNames(a, a', k, number, name, m);
    FindIs(a', 0, MAX_ENTRIES, m, r);
  }

  lemma LookupSet(a: seq<byte>, a': seq<byte>, k: nat, number: nat, name: seq<byte>, m: seq<byte>)
    requires RecordSet(a, a', k, number, name) && Inum(a, k) == 0 && number != 0
    ensures Lookup(a', m) == if m == name && k < FindFrom(a, 0, MAX_ENTRIES, m) then number else Lookup(a, m)
  {
    var before := FindFrom(a, 0, MAX_ENTRIES, m);
    SetFind(a, a', k, number, name, m, if m == name && k < before then k else before);
  }

  /** After an addition a name resolves to the new inumber exactly when it is the stored
      name and the record reused comes before any older one of that name. */
  lemma LookupAdded(a: seq<byte>, n: nat, inumber: nat, name: seq<byte>, m: seq<byte>)
    requires |a| == CAPACITY && n <= MAX_ENTRIES && UsedWithin(a, n) && CName(name)
    requires 0 < inumber < 65536 && FreeFrom(a, 0, n) < MAX_ENTRIES
    ensures Lookup(Added(a, n, inumber, name), m) ==
            if m == Stored(name) && FreeFrom(a, 0, n) < FindFrom(a, 0, MAX_ENTRIES, m) then inumber else Lookup(a, m)
  {
    AddedSets(a, n, inumber, name);
    LookupSet(a, Added(a, n, inumber, name), FreeFrom(a, 0, n), inumber, Stored(name), m);
  }

  /** `add_entry` of an absent name of at most 15 characters updates the map. */
  lemma AddRefinesUpdate(a: seq<byte>, n: nat, inumber: nat, name: seq<byte>)
    requires |a| == CAPACITY && n <= MAX_ENTRIES && UsedWithin(a, n) && CName(name)
    requires 0 < inumber < 65536 && FreeFrom(a, 0, n) < MAX_ENTRIES
    requires |name| < ENTRYMAXLENGTH && name !in Entries(a)
    ensures Entries(Added(a, n, inumber, name)) == Entries(a)[name := inumber]
  {
    var m := Entries(a)[name := inumber];
    InEntries(a, name);
    forall x ensures var l := Lookup(Added(a, n, inumber, name), x);
                     (x in m <==> l != 0) && (x in m ==> m[x] == l)
    {
      LookupAdded(a, n, inumber, name, x);
      InEntries(a, x);
    }
    EntriesEqual(Added(a, n, inumber, name), m);
  }

  lemma AddKeepsShape(a: seq<byte>, n: nat, n': nat, inumber: nat, name: seq<byte>)
    requires |a| == CAPACITY && n <= n' <= MAX_ENTRIES && UsedWithin(a, n) && CName(name)
    requires 0 < inumber < 65536 && FreeFrom(a, 0, n) < n'
    ensures UsedWithin(Added(a, n, inumber, name), n')
    ensures UniqueNames(a) && Lookup(a, Stored(name)) == 0 ==> UniqueNames(Added(a, n, inumber, name))
  {
    AddedSets(a, n, inumber, name);
    if UniqueNames(a) && Lookup(a, Stored(name)) == 0 {
      SetKeepsUnique(a, Added(a, n, inumber, name), FreeFrom(a, 0, n), inumber, Stored(name));
    }
  }

  lemma SetKeepsUnique(a: seq<byte>, a': seq<byte>, k: nat, number: nat, name: seq<byte>)
    requires RecordSet(a, a', k, number, name) && UniqueNames(a) && Lookup(a, name) == 0
    ensures UniqueNames(a')
  {
    assert FindFrom(a, 0, MAX_ENTRIES, name) == MAX_ENTRIES;
    forall i: nat, j: nat | i < j < MAX_ENTRIES && Inum(a', i) != 0 && Inum(a', j) != 0
      ensures EntName(a', i) != EntName(a', j)
    {
      assert !Names(a, i, name) && !Names(a, j, name);
    }
  }

  /** Only one record is in use under this name. */
  ghost predicate Once(a: seq<byte>, name: seq<byte>)
    requires |a| == CAPACITY
  {
    forall j: nat, k: nat | j < k < MAX_ENTRIES && Names(a, j, name) :: !Names(a, k, name)
  }

  lemma UniqueOnce(a: seq<byte>, name: seq<byte>)
    requires |a| == CAPACITY && UniqueNames(a)
    ensures Once(a, name)
  {
  }

  /** The inumber of the second record of that name, 0 if there is none. */
  function SecondOf(a: seq<byte>, name: seq<byte>): nat
    requires |a| == CAPACITY
  {
    var k := FindFrom(a, 0, MAX_ENTRIES, name);
    if k == MAX_ENTRIES then 0
    else
      var r := FindFrom(a, k + 1, MAX_ENTRIES, name);
      if r == MAX_ENTRIES then 0 else Inum(a, r)
  }

  lemma SecondOrOnce(a: seq<byte>, name: seq<byte>)
    requires |a| == CAPACITY
    ensures SecondOf(a, name) == 0 <==> Once(a, name)
  {
    var k := FindFrom(a, 0, MAX_ENTRIES, name);
    if k < MAX_ENTRIES {
      var r := FindFrom(a, k + 1, MAX_ENTRIES, name);
      assert r < MAX_ENTRIES ==> Names(a, k, name) && Names(a, r, name);
    }
  }

  /** After the first record of a name is cleared the name leads to the second, if any. */
  lemma LookupCleared(a: seq<byte>, a': seq<byte>, name: seq<byte>, m: seq<byte>)
    requires |a| == CAPACITY && Lookup(a, name) != 0
    requires RecordSet(a, a', FindFrom(a, 0, MAX_ENTRIES, name), 0, [])
    ensures Lookup(a', m) == if m == name then SecondOf(a, name) else Lookup(a, m)
  {
    var k := FindFrom(a, 0, MAX_ENTRIES, name);
    if m == name {
      SetFind(a, a', k, 0, [], m, FindFrom(a, k + 1, MAX_ENTRIES, m));
    } else {
      SetFind(a, a', k, 0, [], m, FindFrom(a, 0, MAX_ENTRIES, m));
    }
  }

  /** `del_entry` of a present name removes it from the map, unless a second record of that
      name takes its place. */
  lemma DeleteRefinesRemoval(a: seq<byte>, name: seq<byte>)
    requires |a| == CAPACITY && name in Entries(a)
    ensures FindFrom(a, 0, MAX_ENTRIES, name) < MAX_ENTRIES
    ensures Entries(Cleared(a, FindFrom(a, 0, MAX_ENTRIES, name)))
         == if Once(a, name) then Entries(a) - {name} else Entries(a)[name := SecondOf(a, name)]
  {
    InEntries(a, name);
    SecondOrOnce(a, name);
    ClearedSets(a, FindFrom(a, 0, MAX_ENTRIES, name));
    RemovedFrom(a, Cleared(a, FindFrom(a, 0, MAX_ENTRIES, name)), name);
  }

  lemma RemovedFrom(a: seq<byte>, a': seq<byte>, name: seq<byte>)
    requires |a| == CAPACITY && Lookup(a, name) != 0
    requires RecordSet(a, a', FindFrom(a, 0, MAX_ENTRIES, name), 0, [])
    ensures Entries(a') == if SecondOf(a, name) == 0 then Entries(a) - {name} else Entries(a)[name := SecondOf(a, name)]
  {
    hide Lookup, SecondOf, Entries;
    var m := if SecondOf(a, name) == 0 then Entries(a) - {name} else Entries(a)[name := SecondOf(a, name)];
    forall x ensures var l := Lookup(a', x); (x in m <==> l != 0) && (x in m ==> m[x] == l) {
      LookupCleared(a, a', name, x);
      InEntries(a, x);
    }
    EntriesEqual(a', m);
  }

  lemma ClearKeepsShape(a: seq<byte>, n: nat, k: nat)
    requires |a| == CAPACITY && n <= MAX_ENTRIES && UsedWithin(a, n) && k < MAX_ENTRIES
    ensures UsedWithin(Cleared(a, k), n)
    ensures UniqueNames(a) ==> UniqueNames(Cleared(a, k))
  {
    ClearedSets(a, k);
  }
}

/** C strings in fixed buffers, as the registry compares and copies them. */
module CString {
  type Byte = b: int | 0 <= b < 256

  /** No terminator inside: what a char pointer reads up to its NUL. */
  predicate IsText(s: seq<Byte>) {
    forall i | 0 <= i < |s| :: s[i] != 0
  }

  /** The text a buffer holds: everything before its first NUL, or all of it. */
  function Text(buf: seq<Byte>): (s: seq<Byte>)
    ensures IsText(s) && s <= buf
    ensures |s| < |buf| ==> buf[|s|] == 0
  {
    if buf == [] || buf[0] == 0 then [] else [buf[0]] + Text(buf[1..])
  }

  /** strncmp(a, b, n) == 0, where reading past the end of either gives its terminator. */
  predicate StrNEqual(a: seq<Byte>, b: seq<Byte>, n: nat)
    decreases n
  {
    n == 0 ||
    (Head(a) == Head(b) && (Head(a) == 0 || StrNEqual(a[1..], b[1..], n - 1)))
  }

  /** strncpy(buf, s, n): s cut or zero-filled to n bytes, the rest of buf as it was. */
  function StrNCopy(buf: seq<Byte>, s: seq<Byte>, n: nat): (r: seq<Byte>)
    requires n <= |buf| && IsText(s)
    ensures |r| == |buf|
    ensures r[n..] == buf[n..]
    ensures |s| < n ==> Text(r) == s
  {
    var r := (if |s| <= n then s + seq(n - |s|, _ => 0) else s[..n]) + buf[n..];
    assert |s| < n ==> r[|s|] == 0 && r[..|s|] == s;
    TextIs(r, if |s| < n then s else Text(r));
    r
  }

  lemma {:induction false} TextIs(buf: seq<Byte>, s: seq<Byte>)
    requires IsText(s) && s <= buf && (|s| < |buf| ==> buf[|s|] == 0)
    ensures Text(buf) == s
  {
    if s != [] { TextIs(buf[1..], s[1..]); }
  }

  function First(s: seq<Byte>, n: nat): seq<Byte> {
    if |s| <= n then s else s[..n]
  }

  function Head(s: seq<Byte>): Byte {
    if s == [] then 0 else s[0]
  }

  lemma FirstStep(a: seq<Byte>, n: nat)
    requires n > 0
    ensures First(Text(a), n) ==
            if Head(a) == 0 then [] else [Head(a)] + First(Text(a[1..]), n - 1)
  {}

  /** strncmp compares the first n characters of the texts. */
  lemma {:induction false} ComparesTexts(a: seq<Byte>, b: seq<Byte>, n: nat)
    ensures StrNEqual(a, b, n) <==> First(Text(a), n) == First(Text(b), n)
    decreases n
  {
    hide Text, First;
    if n == 0 {
      FirstNone(a);
      FirstNone(b);
    } else {
      FirstStep(a, n);
      FirstStep(b, n);
      if Head(a) == Head(b) != 0 {
        ComparesTexts(a[1..], b[1..], n - 1);
        SameTail(Head(a), First(Text(a[1..]), n - 1), First(Text(b[1..]), n - 1));
      } else if Head(a) != Head(b) {
        assert First(Text(a), n) != First(Text(b), n) by {
          if Head(a) != 0 { assert First(Text(a), n)[0] == Head(a); }
          if Head(b) != 0 { assert First(Text(b), n)[0] == Head(b); }
        }
      }
    }
  }

  lemma FirstNone(a: seq<Byte>)
    ensures First(Text(a), 0) == []
  {}

  lemma SameTail(x: Byte, s: seq<Byte>, t: seq<Byte>)
    ensures s == t <==> [x] + s == [x] + t
  {
    assert ([x] + s)[1..] == s && ([x] + t)[1..] == t;
  }
}

/** The layout of a registry file: a six-byte header, then records of a 32-byte key and a
    little-endian 32-bit value. */
module RegistryFormat {
  import opened CString

  const KEY_SIZE := 32
  const ENTRY_SIZE := 36
  const HEADER_SIZE := 6

  type Int32 = v: int | -0x8000_0000 <= v < 0x8000_0000

  datatype Record = Record(key: seq<Byte>, value: Int32)

  function EncodeInt(v: Int32): (b: seq<Byte>)
    ensures |b| == 4
  {
    var u := if v < 0 then v + 0x1_0000_0000 else v;
    [u % 256, u / 256 % 256, u / 65536 % 256, u / 16777216]
  }

  function DecodeInt(b: seq<Byte>): (v: Int32)
    requires |b| == 4
  {
    var u: int := b[0] as int + 256 * b[1] as int + 65536 * b[2] as int + 16777216 * b[3] as int;
    if u >= 0x8000_0000 then u - 0x1_0000_0000 else u
  }

  lemma {:induction false} IntRoundTrip(v: Int32)
    ensures DecodeInt(EncodeInt(v)) == v
  {
    var u := if v < 0 then v + 0x1_0000_0000 else v;
    assert u / 65536 == u / 256 / 256 && u / 16777216 == u / 256 / 256 / 256;
  }

  function Power256(i: nat): (p: nat)
    ensures p > 0
  {
    if i == 0 then 1 else 256 * Power256(i - 1)
  }

  /** The bytes of an int on disk, the lowest first. */
  lemma {:induction false} EncodeIntBytes(v: Int32, i: nat)
    requires i < 4
    ensures EncodeInt(v)[i] == v % 0x1_0000_0000 / Power256(i) % 256
  {
    assert Power256(1) == 256 && Power256(2) == 65536 by { assert Power256(0) == 1; }
    assert Power256(3) == 16777216;
  }

  function Encode(r: Record): (b: seq<Byte>)
    requires |r.key| == KEY_SIZE
    ensures |b| == ENTRY_SIZE
  {
    r.key + EncodeInt(r.value)
  }

  function Decode(b: seq<Byte>): (r: Record)
    requires |b| == ENTRY_SIZE
    ensures |r.key| == KEY_SIZE
  {
    Record(b[..KEY_SIZE], DecodeInt(b[KEY_SIZE..]))
  }

  lemma RecordRoundTrip(r: Record)
    requires |r.key| == KEY_SIZE
    ensures Decode(Encode(r)) == r
  {
    IntRoundTrip(r.value);
    assert Encode(r)[..KEY_SIZE] == r.key && Encode(r)[KEY_SIZE..] == EncodeInt(r.value);
  }

  /** A header and a whole number of records. */
  predicate WellFormed(data: seq<Byte>) {
    |data| >= HEADER_SIZE && (|data| - HEADER_SIZE) % ENTRY_SIZE == 0
  }

  function Count(data: seq<Byte>): nat
    requires WellFormed(data)
  {
    (|data| - HEADER_SIZE) / ENTRY_SIZE
  }

  function Offset(i: nat): nat {
    HEADER_SIZE + ENTRY_SIZE * i
  }

  function Slot(data: seq<Byte>, i: nat): (b: seq<Byte>)
    requires WellFormed(data) && i < Count(data)
    ensures |b| == ENTRY_SIZE
  {
    data[Offset(i)..Offset(i + 1)]
  }

  /** The records of a file, in order. */
  function Records(data: seq<Byte>): (rs: seq<Record>)
    requires WellFormed(data)
    ensures |rs| == Count(data)
    ensures forall i | 0 <= i < |rs| :: rs[i] == Decode(Slot(data, i))
  {
    seq(Count(data), i requires 0 <= i < Count(data) => Decode(Slot(data, i)))
  }

  predicate KeysFit(rs: seq<Record>) {
    forall i | 0 <= i < |rs| :: |rs[i].key| == KEY_SIZE
  }

  function EncodeAll(rs: seq<Record>): (b: seq<Byte>)
    requires KeysFit(rs)
    ensures |b| == ENTRY_SIZE * |rs|
  {
    if rs == [] then [] else EncodeAll(rs[..|rs| - 1]) + Encode(rs[|rs| - 1])
  }

  /** What is stored is what is read back. */
  lemma {:induction false} StoredIsRead(header: seq<Byte>, rs: seq<Record>)
    requires |header| == HEADER_SIZE && KeysFit(rs)
    ensures WellFormed(header + EncodeAll(rs)) && Records(header + EncodeAll(rs)) == rs
    decreases |rs|
  {
    hide Records, Encode, Decode, WellFormed;
    if rs == [] {
      HeaderOnly(header);
      assert header + [] == header;
    } else {
      var front, last := rs[..|rs| - 1], rs[|rs| - 1];
      StoredIsRead(header, front);
      Appended(header + EncodeAll(front), Encode(last));
      RecordRoundTrip(last);
      assert header + EncodeAll(rs) == header + EncodeAll(front) + Encode(last);
    }
  }

  lemma HeaderOnly(header: seq<Byte>)
    requires |header| == HEADER_SIZE
    ensures WellFormed(header) && Records(header) == []
  {}

  lemma Appended(data: seq<Byte>, entry: seq<Byte>)
    requires WellFormed(data) && |entry| == ENTRY_SIZE
    ensures WellFormed(data + entry)
    ensures Records(data + entry) == Records(data) + [Decode(entry)]
  {
    var d := data + entry;
    assert Count(d) == Count(data) + 1;
    forall i | 0 <= i < Count(data) ensures Slot(d, i) == Slot(data, i) {}
    assert Slot(d, Count(data)) == entry;
  }

  /** data with its record k overwritten. */
  function Overwritten(data: seq<Byte>, k: nat, entry: seq<Byte>): seq<Byte>
    requires WellFormed(data) && k < Count(data) && |entry| == ENTRY_SIZE
  {
    data[..Offset(k)] + entry + data[Offset(k + 1)..]
  }

  lemma {:induction false} OverwrittenRecords(data: seq<Byte>, k: nat, entry: seq<Byte>)
    requires WellFormed(data) && k < Count(data) && |entry| == ENTRY_SIZE
    ensures WellFormed(Overwritten(data, k, entry))
    ensures Records(Overwritten(data, k, entry)) == Records(data)[k := Decode(entry)]
  {
    var d := Overwritten(data, k, entry);
    forall i | 0 <= i < Count(data) ensures Slot(d, i) == if i == k then entry else Slot(data, i) {
      SlotOfOverwritten(data, k, entry, i);
    }
  }

  lemma SlotOfOverwritten(data: seq<Byte>, k: nat, entry: seq<Byte>, i: nat)
    requires WellFormed(data) && k < Count(data) && |entry| == ENTRY_SIZE && i < Count(data)
    ensures var d := Overwritten(data, k, entry);
            WellFormed(d) && Slot(d, i) == if i == k then entry else Slot(data, i)
  {
    var d := Overwritten(data, k, entry);
    if i < k {
      assert Offset(i + 1) <= Offset(k);
    } else if i > k {
      assert Offset(k + 1) <= Offset(i);
      forall j | 0 <= j < ENTRY_SIZE ensures Slot(d, i)[j] == Slot(data, i)[j] {}
    }
  }

  // The file as a map from keys to values

  /** The position of the first record with the key, or the number of records. */
  function Find(rs: seq<Record>, key: seq<Byte>): (k: nat)
    ensures k <= |rs|
    ensures k < |rs| ==> Text(rs[k].key) == key
    ensures forall i | 0 <= i < k :: Text(rs[i].key) != key
  {
    if rs == [] || Text(rs[0].key) == key then 0 else 1 + Find(rs[1..], key)
  }

  lemma FindIs(rs: seq<Record>, key: seq<Byte>, k: nat)
    requires k <= |rs| && (k < |rs| ==> Text(rs[k].key) == key)
    requires forall i | 0 <= i < k :: Text(rs[i].key) != key
    ensures Find(rs, key) == k
  {}

  datatype Option<T> = None | Some(value: T)

  function Lookup(rs: seq<Record>, key: seq<Byte>): Option<Int32> {
    var k := Find(rs, key);
    if k < |rs| then Some(rs[k].value) else None
  }

  predicate Distinct(rs: seq<Record>) {
    forall i, j | 0 <= i < j < |rs| :: Text(rs[i].key) != Text(rs[j].key)
  }

  /** registry_set on the records: the first record of the key takes the value, or a new one is
      appended, whose last key byte is left over from before. */
  function Updated(rs: seq<Record>, key: seq<Byte>, value: Int32, rest: seq<Byte>): seq<Record>
    requires IsText(key) && |rest| == KEY_SIZE
  {
    var k := Find(rs, key);
    if k < |rs| then rs[k := Record(rs[k].key, value)]
    else rs + [Record(StrNCopy(rest, key, KEY_SIZE - 1), value)]
  }

  /** What a new record's field holds is the key: it is shorter than 31 characters, or the byte left
      over at the end happens to be the terminator or the last character that belongs there. */
  predicate Fits(key: seq<Byte>, left: Byte)
    requires |key| <= KEY_SIZE
  {
    |key| < KEY_SIZE - 1 || left == if |key| == KEY_SIZE then key[KEY_SIZE - 1] else 0
  }

  lemma FieldIff(key: seq<Byte>, rest: seq<Byte>)
    requires IsText(key) && |key| <= KEY_SIZE == |rest|
    ensures Text(StrNCopy(rest, key, KEY_SIZE - 1)) == key <==> Fits(key, rest[KEY_SIZE - 1])
  {
    var field := StrNCopy(rest, key, KEY_SIZE - 1);
    assert field[KEY_SIZE - 1] == rest[KEY_SIZE - 1..][0];
    if |key| >= KEY_SIZE - 1 {
      assert field[..KEY_SIZE - 1] == key[..KEY_SIZE - 1];
      if Fits(key, rest[KEY_SIZE - 1]) { TextIs(field, key); }
    }
  }

  /** A key reads back with its value if and only if it was there or fits; otherwise it is absent
      as before. */
  lemma {:induction false} UpdateReadsBackIff(rs: seq<Record>, key: seq<Byte>, value: Int32, rest: seq<Byte>)
    requires IsText(key) && |key| <= KEY_SIZE == |rest|
    ensures Lookup(Updated(rs, key, value, rest), key) ==
            if Find(rs, key) < |rs| || Fits(key, rest[KEY_SIZE - 1]) then Some(value) else None
  {
    hide IsText, Text, StrNCopy, Find, Fits;
    var u := Updated(rs, key, value, rest);
    var k := Find(rs, key);
    FieldIff(key, rest);
    FindIs(u, key, if k < |rs| || Fits(key, rest[KEY_SIZE - 1]) then k else |u|);
  }

  /** A key that reads back does so unnoticed by every other key; no record moves, and a record is
      added only for a key that was absent. */
  lemma {:induction false} UpdateIsMapUpdate(
      rs: seq<Record>, key: seq<Byte>, value: Int32, rest: seq<Byte>, other: seq<Byte>)
    requires IsText(key) && |key| <= KEY_SIZE == |rest| && (Find(rs, key) < |rs| || Fits(key, rest[KEY_SIZE - 1]))
    ensures var u := Updated(rs, key, value, rest);
            && Lookup(u, key) == Some(value)
            && (other != key ==> Lookup(u, other) == Lookup(rs, other))
            && |u| == |rs| + (if Lookup(rs, key) == None then 1 else 0)
            && (forall i | 0 <= i < |rs| :: u[i].key == rs[i].key)
            && (forall i | 0 <= i < |rs| && i != Find(rs, key) :: u[i] == rs[i])
  {
    hide IsText, Text, StrNCopy, Find, Fits;
    var u := Updated(rs, key, value, rest);
    UpdateReadsBackIff(rs, key, value, rest);
    FieldIff(key, rest);
    if other != key {
      var j := Find(rs, other);
      assert forall i | 0 <= i < |rs| :: u[i].key == rs[i].key;
      FindIs(u, other, if j == |rs| then |u| else j);
    }
  }

  lemma {:induction false} UpdateKeepsDistinct(rs: seq<Record>, key: seq<Byte>, value: Int32, rest: seq<Byte>)
    requires IsText(key) && |key| <= KEY_SIZE == |rest| && (Find(rs, key) < |rs| || Fits(key, rest[KEY_SIZE - 1]))
    requires Distinct(rs)
    ensures Distinct(Updated(rs, key, value, rest))
  {
    hide IsText, Text, StrNCopy, Fits;
    var u := Updated(rs, key, value, rest);
    FieldIff(key, rest);
    assert forall i | 0 <= i < |rs| :: u[i].key == rs[i].key;
  }
}

/** What the loops of registry.c read, whatever bytes the file has: a last read may fall short and
    leave the rest of the entry as it was. */
module RegistryReads {
  import opened CString
  import opened RegistryFormat

  /** How many reads give something. */
  function Reads(data: seq<Byte>): nat
    requires |data| >= HEADER_SIZE
  {
    (|data| - HEADER_SIZE + ENTRY_SIZE - 1) / ENTRY_SIZE
  }

  /** Where read i starts; after the last one, the end of the file. */
  function Start(data: seq<Byte>, i: nat): nat {
    if Offset(i) <= |data| then Offset(i) else |data|
  }

  function Chunk(data: seq<Byte>, i: nat): (c: seq<Byte>)
    requires |data| >= HEADER_SIZE && i < Reads(data)
    ensures 0 < |c| <= ENTRY_SIZE
  {
    data[Start(data, i)..Start(data, i + 1)]
  }

  /** The entry variable after n reads; stack is what it held before. */
  function EntryAfter(data: seq<Byte>, stack: seq<Byte>, n: nat): (e: seq<Byte>)
    requires |data| >= HEADER_SIZE && n <= Reads(data) && |stack| == ENTRY_SIZE
    ensures |e| == ENTRY_SIZE
    decreases n
  {
    if n == 0 then stack
    else
      var c := Chunk(data, n - 1);
      c + EntryAfter(data, stack, n - 1)[|c|..]
  }

  /** strncmp(key, entry.key, 32) == 0 after read i */
  predicate Hit(data: seq<Byte>, stack: seq<Byte>, key: seq<Byte>, i: nat)
    requires |data| >= HEADER_SIZE && i < Reads(data) && |stack| == ENTRY_SIZE
  {
    StrNEqual(key, EntryAfter(data, stack, i + 1)[..KEY_SIZE], KEY_SIZE)
  }

  /** The first hit from read i on, or the number of reads. */
  function FirstHit(data: seq<Byte>, stack: seq<Byte>, key: seq<Byte>, i: nat): (k: nat)
    requires |data| >= HEADER_SIZE && i <= Reads(data) && |stack| == ENTRY_SIZE
    ensures i <= k <= Reads(data)
    ensures k < Reads(data) ==> Hit(data, stack, key, k)
    ensures forall j | i <= j < k :: !Hit(data, stack, key, j)
    decreases Reads(data) - i
  {
    if i == Reads(data) || Hit(data, stack, key, i) then i else FirstHit(data, stack, key, i + 1)
  }

  /** What registry_set makes of the entry its search ends with. */
  function NewEntry(entry: seq<Byte>, found: bool, key: seq<Byte>, value: Int32): (e: seq<Byte>)
    requires |entry| == ENTRY_SIZE && IsText(key)
    ensures |e| == ENTRY_SIZE
  {
    (if found then entry[..KEY_SIZE] else StrNCopy(entry[..KEY_SIZE], key, KEY_SIZE - 1)) + EncodeInt(value)
  }

  /** The file after registry_set. */
  function SetBytes(data: seq<Byte>, stack: seq<Byte>, key: seq<Byte>, value: Int32): seq<Byte>
    requires |data| >= HEADER_SIZE && |stack| == ENTRY_SIZE && IsText(key)
  {
    var k := FirstHit(data, stack, key, 0);
    if k < Reads(data) then
      data[..Start(data, k)] + NewEntry(EntryAfter(data, stack, k + 1), true, key, value) + data[Start(data, k + 1)..]
    else
      data + NewEntry(EntryAfter(data, stack, k), false, key, value)
  }

  /** The records registry_get_list makes of what it reads. */
  function ReadRecords(data: seq<Byte>, stack: seq<Byte>): (rs: seq<Record>)
    requires |data| >= HEADER_SIZE && |stack| == ENTRY_SIZE
    ensures |rs| == Reads(data)
    ensures forall i | 0 <= i < |rs| :: rs[i] == Decode(EntryAfter(data, stack, i + 1))
  {
    seq(Reads(data), i requires 0 <= i < Reads(data) => Decode(EntryAfter(data, stack, i + 1)))
  }

  /** A read from where read k starts gives its chunk, or nothing after the last. */
  lemma NextRead(data: seq<Byte>, k: nat, bytes: seq<Byte>)
    requires |data| >= HEADER_SIZE && k <= Reads(data)
    requires |bytes| == if |data| - Start(data, k) < ENTRY_SIZE then |data| - Start(data, k) else ENTRY_SIZE
    requires bytes == data[Start(data, k)..Start(data, k) + |bytes|]
    ensures |bytes| == 0 <==> k == Reads(data)
    ensures k < Reads(data) ==>
              bytes == Chunk(data, k) && Start(data, k + 1) == Start(data, k) + |bytes| && Start(data, k) == Offset(k)
  {}

  // On a well-formed file every read gives a record

  lemma WholeReads(data: seq<Byte>, i: nat)
    requires WellFormed(data) && i < Count(data)
    ensures Reads(data) == Count(data) && Start(data, i) == Offset(i) && Start(data, i + 1) == Offset(i + 1)
    ensures Chunk(data, i) == Slot(data, i)
  {}

  lemma SameCount(data: seq<Byte>)
    requires WellFormed(data)
    ensures Reads(data) == Count(data)
  {}

  lemma WholeEntry(data: seq<Byte>, stack: seq<Byte>, n: nat)
    requires WellFormed(data) && n <= Count(data) && |stack| == ENTRY_SIZE
    ensures Reads(data) == Count(data)
    ensures EntryAfter(data, stack, n) == if n == 0 then stack else Slot(data, n - 1)
  {
    hide Reads, Count, Slot, Chunk;
    SameCount(data);
    if n > 0 { WholeReads(data, n - 1); }
  }

  lemma WholeRecords(data: seq<Byte>, stack: seq<Byte>)
    requires WellFormed(data) && |stack| == ENTRY_SIZE
    ensures ReadRecords(data, stack) == Records(data)
  {
    hide EntryAfter, Reads, Count, Slot, Decode;
    SameCount(data);
    forall i | 0 <= i < Count(data) ensures ReadRecords(data, stack)[i] == Records(data)[i] {
      WholeEntry(data, stack, i + 1);
    }
  }

  lemma HitIsKey(data: seq<Byte>, stack: seq<Byte>, key: seq<Byte>, i: nat)
    requires WellFormed(data) && i < Count(data) && |stack| == ENTRY_SIZE && IsText(key)
    ensures Reads(data) == Count(data)
    ensures Hit(data, stack, key, i) <==> Text(Records(data)[i].key) == First(key, KEY_SIZE)
  {
    hide EntryAfter, Reads, Count, Slot, StrNEqual, Text, IsText;
    WholeEntry(data, stack, i + 1);
    ComparesTexts(key, Slot(data, i)[..KEY_SIZE], KEY_SIZE);
    TextIs(key, key);
  }

  lemma FirstHitIsFind(data: seq<Byte>, stack: seq<Byte>, key: seq<Byte>)
    requires WellFormed(data) && |stack| == ENTRY_SIZE && IsText(key)
    ensures FirstHit(data, stack, key, 0) == Find(Records(data), First(key, KEY_SIZE))
  {
    hide Hit, Reads, Count, Slot, Text, IsText, FirstHit, Find, First;
    var k := FirstHit(data, stack, key, 0);
    SameCount(data);
    forall i | 0 <= i < Count(data)
      ensures Hit(data, stack, key, i) <==> Text(Records(data)[i].key) == First(key, KEY_SIZE)
    {
      HitIsKey(data, stack, key, i);
    }
    FindIs(Records(data), First(key, KEY_SIZE), k);
  }

  /** The last record, or the uninitialised entry when there is none. */
  function LastEntry(data: seq<Byte>, stack: seq<Byte>): (entry: seq<Byte>)
    requires WellFormed(data) && |stack| == ENTRY_SIZE
    ensures |entry| == ENTRY_SIZE
  {
    if Count(data) == 0 then stack else Slot(data, Count(data) - 1)
  }

  lemma FirstCopies(rest: seq<Byte>, key: seq<Byte>)
    requires IsText(key) && |rest| == KEY_SIZE
    ensures IsText(First(key, KEY_SIZE)) && |First(key, KEY_SIZE)| <= KEY_SIZE
    ensures StrNCopy(rest, First(key, KEY_SIZE), KEY_SIZE - 1) == StrNCopy(rest, key, KEY_SIZE - 1)
    ensures |key| <= KEY_SIZE ==> First(key, KEY_SIZE) == key
  {
    hide Text;
  }

  /** registry_set on a well-formed file: it stays well formed with its header, and its records
      are updated for the first 32 characters of the key. */
  lemma {:induction false} SetBytesUpdates(data: seq<Byte>, stack: seq<Byte>, key: seq<Byte>, value: Int32)
    requires WellFormed(data) && |stack| == ENTRY_SIZE && IsText(key)
    ensures var d := SetBytes(data, stack, key, value);
            && WellFormed(d) && d[..HEADER_SIZE] == data[..HEADER_SIZE]
            && IsText(First(key, KEY_SIZE))
            && Records(d) == Updated(Records(data), First(key, KEY_SIZE), value, LastEntry(data, stack)[..KEY_SIZE])
  {
    hide IsText, Text, StrNCopy, Find, First, FirstHit, EntryAfter, Chunk, Slot, Reads, Count, Decode;
    var k := FirstHit(data, stack, key, 0);
    SameCount(data);
    FirstHitIsFind(data, stack, key);
    FirstCopies(LastEntry(data, stack)[..KEY_SIZE], key);
    if k < Count(data) {
      WholeEntry(data, stack, k + 1);
      WholeReads(data, k);
      EntryReplaced(data, k, key, value);
    } else {
      WholeEntry(data, stack, k);
      EntryAdded(data, LastEntry(data, stack), key, value);
    }
  }

  /** After registry_set the key reads back with its value if and only if it was there before or
      fits; otherwise it is absent, and the file has grown all the same. */
  lemma {:induction false} SetReadsBackIff(data: seq<Byte>, stack: seq<Byte>, key: seq<Byte>, value: Int32)
    requires WellFormed(data) && |stack| == ENTRY_SIZE && IsText(key)
    ensures var d, name := SetBytes(data, stack, key, value), First(key, KEY_SIZE);
            && WellFormed(d)
            && Lookup(Records(d), name) ==
                 (if Lookup(Records(data), name).Some? || Fits(name, LastEntry(data, stack)[KEY_SIZE - 1])
                  then Some(value) else None)
            && Count(d) == Count(data) + if Lookup(Records(data), name).Some? then 0 else 1
  {
    hide IsText, SetBytes, First, Find, Fits, LastEntry, Records, StrNCopy;
    SetBytesUpdates(data, stack, key, value);
    FirstCopies(LastEntry(data, stack)[..KEY_SIZE], key);
    UpdateReadsBackIff(Records(data), First(key, KEY_SIZE), value, LastEntry(data, stack)[..KEY_SIZE]);
  }

  /** A key of 31 characters that is lost: set in a file with a header only, when the uninitialised
      entry is not zero behind it. */
  lemma {:induction false} LongKeyLost(data: seq<Byte>, stack: seq<Byte>, key: seq<Byte>, value: Int32)
    requires |data| == HEADER_SIZE && |stack| == ENTRY_SIZE && stack[KEY_SIZE - 1] != 0
    requires IsText(key) && |key| == KEY_SIZE - 1
    ensures var d := SetBytes(data, stack, key, value);
            WellFormed(d) && Count(d) == 1 && Lookup(Records(d), key) == None
  {
    hide IsText, SetBytes, Records, Find;
    SetReadsBackIff(data, stack, key, value);
    assert Records(data) == [];
    FindIs([], key, 0);
  }

  lemma EntryReplaced(data: seq<Byte>, k: nat, key: seq<Byte>, value: Int32)
    requires WellFormed(data) && k < Count(data) && IsText(key)
    ensures var d := Overwritten(data, k, NewEntry(Slot(data, k), true, key, value));
            && WellFormed(d) && d[..HEADER_SIZE] == data[..HEADER_SIZE]
            && Records(d) == Records(data)[k := Record(Records(data)[k].key, value)]
  {
    hide IsText, Text, StrNCopy, Slot;
    var e := NewEntry(Slot(data, k), true, key, value);
    IntRoundTrip(value);
    assert e[KEY_SIZE..] == EncodeInt(value) && e[..KEY_SIZE] == Slot(data, k)[..KEY_SIZE];
    OverwrittenRecords(data, k, e);
  }

  lemma EntryAdded(data: seq<Byte>, last: seq<Byte>, key: seq<Byte>, value: Int32)
    requires WellFormed(data) && |last| == ENTRY_SIZE && IsText(key)
    ensures var d := data + NewEntry(last, false, key, value);
            && WellFormed(d) && d[..HEADER_SIZE] == data[..HEADER_SIZE]
            && Records(d) == Records(data) + [Record(StrNCopy(last[..KEY_SIZE], key, KEY_SIZE - 1), value)]
  {
    hide IsText, Text, StrNCopy, Slot;
    var e := NewEntry(last, false, key, value);
    IntRoundTrip(value);
    assert e[KEY_SIZE..] == EncodeInt(value) && e[..KEY_SIZE] == StrNCopy(last[..KEY_SIZE], key, KEY_SIZE - 1);
    Appended(data, e);
  }
}

/** registry.c over an open file: its bytes and a seek position. */
module Registry {
  import opened CString
  import opened RegistryFormat
  import opened RegistryReads
  import opened TshList

  /** The header write_header writes: the magic number and version 1. */
  const HEADER: seq<Byte> := [0x54, 0x53, 0x52, 0, 1, 0]

  /** The header's magic text is TSR, with its terminator, and its version is 1. */
  lemma {:induction false} HeaderReads()
    ensures |HEADER| == HEADER_SIZE
    ensures Text(HEADER[..4]) == ['T' as int, 'S' as int, 'R' as int] && HEADER[3] == 0
    ensures HEADER[4] + 256 * HEADER[5] == 1
  {
    var magic: seq<Byte> := [0x54, 0x53, 0x52];
    assert HEADER[..4][..3] == magic;
    TextIs(HEADER[..4], magic);
  }

  class File {
    var data: seq<Byte>
    var pos: nat

    ghost predicate Valid()
      reads this
    {
      pos <= |data|
    }

    constructor (data: seq<Byte>)
      ensures Valid() && this.data == data && pos == 0
    {
      this.data, pos := data, 0;
    }

    /** ksceIoOpen, which starts at the beginning and may truncate. */
    method Open(truncate: bool)
      modifies this
      ensures Valid() && pos == 0 && data == if truncate then [] else old(data)
    {
      pos := 0;
      if truncate { data := []; }
    }

    /** ksceIoRead: as much as there is, n bytes at most. */
    method Read(n: nat) returns (bytes: seq<Byte>)
      requires Valid()
      modifies `pos
      ensures Valid() && pos == old(pos) + |bytes|
      ensures |bytes| == if |data| - old(pos) < n then |data| - old(pos) else n
      ensures bytes == data[old(pos)..pos]
    {
      var end := if |data| - pos < n then |data| else pos + n;
      bytes := data[pos..end];
      pos := end;
    }

    /** ksceIoWrite: over what is there, and on past the end. */
    method Write(bytes: seq<Byte>)
      requires Valid()
      modifies this
      ensures Valid() && pos == old(pos) + |bytes|
      ensures data == old(data[..pos]) + bytes +
                      (if old(pos) + |bytes| <= |old(data)| then old(data)[old(pos) + |bytes|..] else [])
    {
      var end := pos + |bytes|;
      data := data[..pos] + bytes + (if end <= |data| then data[end..] else []);
      pos := end;
    }

    method Seek(off: nat)
      requires off <= |data|
      modifies `pos
      ensures Valid() && pos == off
    {
      pos := off;
    }

    /** read_header, and write_header into an empty file. */
    method ReadHeader() returns (ok: bool)
      requires Valid() && pos == 0
      modifies this
      ensures Valid() && ok == (|old(data)| == 0 || |old(data)| >= HEADER_SIZE)
      ensures data == if old(data) == [] then HEADER else old(data)
      ensures ok ==> pos == HEADER_SIZE
    {
      var hdr := Read(HEADER_SIZE);
      ok := true;
      if |hdr| != HEADER_SIZE {
        if |hdr| == 0 {
          Write(HEADER);
        } else {
          ok := false;
        }
      }
    }

    /** The search loop of registry_set, on any bytes after a header; the position is left where
        the entry is to be written. */
    method FindEntry(key: seq<Byte>, stack: seq<Byte>) returns (entry: seq<Byte>, found: bool)
      requires Valid() && pos == HEADER_SIZE && |stack| == ENTRY_SIZE
      modifies `pos
      ensures var k := FirstHit(data, stack, key, 0);
              && found == (k < Reads(data)) && Valid() && pos == Start(data, k)
              && entry == EntryAfter(data, stack, if found then k + 1 else k)
    {
      hide StrNEqual, EntryAfter, Chunk, Reads, Start;
      ghost var k := 0;
      var off := HEADER_SIZE;
      entry, found := stack, false;
      AtStart(data, stack);
      while true
        invariant Valid() && !found && k <= Reads(data) && pos == off == Start(data, k)
        invariant entry == EntryAfter(data, stack, k)
        invariant FirstHit(data, stack, key, 0) == FirstHit(data, stack, key, k)
        decreases |data| - pos
      {
        var read := Read(ENTRY_SIZE);
        NextRead(data, k, read);
        if |read| == 0 { break; }
        NextEntry(data, stack, k);
        entry := read + entry[|read|..];
        if StrNEqual(key, entry[..KEY_SIZE], KEY_SIZE) {
          Seek(off);
          found := true;
          break;
        }
        off := off + |read|;
        k := k + 1;
      }
    }

    /** registry_set. stack is what the uninitialised entry holds. */
    method Set(key: seq<Byte>, value: Int32, stack: seq<Byte>) returns (ret: int)
      requires IsText(key) && |stack| == ENTRY_SIZE
      modifies this
      ensures var was := if old(data) == [] then HEADER else old(data);
              if |was| < HEADER_SIZE then ret == -1 && data == was
              else ret == 0 && data == SetBytes(was, stack, key, value)
    {
      hide IsText, StrNCopy, FirstHit, EntryAfter, Reads, EncodeInt, SetBytes, Start;
      Open(false);
      var ok := ReadHeader();
      if !ok { return -1; }
      ghost var was := data;
      var entry, found := FindEntry(key, stack);
      ghost var e := NewEntry(entry, found, key, value);
      if !found {
        entry := StrNCopy(entry[..KEY_SIZE], key, KEY_SIZE - 1) + entry[KEY_SIZE..];
      }
      entry := entry[..KEY_SIZE] + EncodeInt(value);
      assert entry == e;
      Write(entry);
      Placed(was, stack, key, value);
      ret := 0;
    }

    /** registry_get_list, when every allocation succeeds: entry i gets key i. */
    method GetList(list: List<Record>, stack: seq<Byte>) returns (ret: int)
      requires list.Valid() && list.nodes == [] && |stack| == ENTRY_SIZE
      modifies this, list
      ensures list.Valid() && fresh(list.nodes) && data == old(data)
      ensures if |data| < HEADER_SIZE then ret == -1 && list.nodes == []
              else ret == 0 && list.Entries() == Numbered(ReadRecords(data, stack))
    {
      hide ReadRecords, Decode, List.Entries, EntryAfter, Chunk, Reads, Start, Numbered;
      Open(false);
      var hdr := Read(HEADER_SIZE);
      if |hdr| != HEADER_SIZE { return -1; }
      var entry := stack;
      ghost var k := 0;
      AtStart(data, stack);
      assert list.Entries() == Numbered(ReadRecords(data, stack)[..0]);
      while true
        invariant Valid() && data == old(data) && k <= Reads(data) && pos == Start(data, k)
        invariant list.Valid() && fresh(list.nodes)
        invariant entry == EntryAfter(data, stack, k)
        invariant list.Entries() == Numbered(ReadRecords(data, stack)[..k])
        decreases |data| - pos
      {
        var read := Read(ENTRY_SIZE);
        NextRead(data, k, read);
        if |read| == 0 { break; }
        NextEntry(data, stack, k);
        entry := read + entry[|read|..];
        var _ := list.Push(list.n, Decode(entry), true);
        NumberedNext(ReadRecords(data, stack), k);
        k := k + 1;
      }
      assert ReadRecords(data, stack)[..k] == ReadRecords(data, stack);
      ret := 0;
    }

    /** registry_store_list */
    method StoreList(list: List<Record>) returns (ret: int)
      requires list.Valid() && KeysFit(Values(list.Entries()))
      modifies this
      ensures data == HEADER + EncodeAll(Values(list.Entries()))
      ensures ret == if list.nodes == [] then -1 else 0
    {
      hide Encode, EncodeAll, Values, List.Entries;
      Open(true);
      Write(HEADER);
      var node := list.head;
      if node == null { return -1; }
      ghost var vs := Values(list.Entries());
      ghost var k := 0;
      while true
        invariant Valid() && pos == |data|
        invariant k < |list.nodes| && node == list.nodes[k]
        invariant data == HEADER + EncodeAll(vs[..k])
        decreases |list.nodes| - k
      {
        EncodeAllNext(vs, k);
        assert vs[k] == node.data && LinkedAt(list.nodes, k);
        Write(Encode(node.data));
        node := node.next;
        k := k + 1;
        if node == null { break; }
      }
      assert vs[..k] == vs;
      ret := 0;
    }
  }

  lemma AtStart(data: seq<Byte>, stack: seq<Byte>)
    requires |data| >= HEADER_SIZE && |stack| == ENTRY_SIZE
    ensures Start(data, 0) == HEADER_SIZE && EntryAfter(data, stack, 0) == stack
  {}

  lemma NextEntry(data: seq<Byte>, stack: seq<Byte>, k: nat)
    requires |data| >= HEADER_SIZE && k < Reads(data) && |stack| == ENTRY_SIZE
    ensures var c := Chunk(data, k);
            EntryAfter(data, stack, k + 1) == c + EntryAfter(data, stack, k)[|c|..]
  {}

  /** Writing the new entry where the search ends gives the bytes of SetBytes. */
  lemma Placed(data: seq<Byte>, stack: seq<Byte>, key: seq<Byte>, value: Int32)
    requires |data| >= HEADER_SIZE && |stack| == ENTRY_SIZE && IsText(key)
    ensures var k := FirstHit(data, stack, key, 0);
            var found := k < Reads(data);
            var pos := Start(data, k);
            var e := NewEntry(EntryAfter(data, stack, if found then k + 1 else k), found, key, value);
            data[..pos] + e + (if pos + |e| <= |data| then data[pos + |e|..] else []) ==
            SetBytes(data, stack, key, value)
  {
    hide FirstHit, EntryAfter, NewEntry, IsText;
  }

  lemma EncodeAllNext(rs: seq<Record>, k: nat)
    requires k < |rs| && KeysFit(rs)
    ensures EncodeAll(rs[..k + 1]) == EncodeAll(rs[..k]) + Encode(rs[k])
  {
    assert rs[..k + 1][..k] == rs[..k];
  }

  /** The list registry_get_list builds from the records. */
  function Numbered(rs: seq<Record>): (es: seq<Entry<Record>>)
    ensures |es| == |rs|
    ensures forall i | 0 <= i < |es| :: es[i] == Entry(i, rs[i])
  {
    seq(|rs|, i requires 0 <= i < |rs| => Entry(i, rs[i]))
  }

  lemma NumberedNext(rs: seq<Record>, k: nat)
    requires k < |rs|
    ensures Numbered(rs[..k + 1]) == Numbered(rs[..k]) + [Entry(k, rs[k])]
  {}

  function Values<T>(es: seq<Entry<T>>): (vs: seq<T>)
    ensures |vs| == |es|
    ensures forall i | 0 <= i < |vs| :: vs[i] == es[i].data
  {
    seq(|es|, i requires 0 <= i < |es| => es[i].data)
  }
}

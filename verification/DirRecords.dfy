/** Directory records (src/smb2/handlers.rs, put_dir_entry): the six information classes a
    directory entry is shown in, and a client's reading of them.
 */
module DirRecords {
  import opened Wire

  datatype Entry = Entry(
    name: bytes, crtime: nat, atime: nat, mtime: nat, ctime: nat, size: nat, alloc: nat, attrs: nat, ino: nat)
  {
    /** The widths of the source's fields; names come from the file system. */
    predicate Typed() {
      && |name| < 0x1_0000_0000 && attrs < 0x1_0000_0000
      && crtime < U64 && atime < U64 && mtime < U64 && ctime < U64 && size < U64 && alloc < U64 && ino < U64
    }
  }

  const U64: nat := 0x1_0000_0000_0000_0000

  // ---------------------------------------------------------- field lists

  /** A value and the number of bytes it is written in. */
  type Field = (nat, nat)

  function Enc(fs: seq<Field>): bytes {
    if fs == [] then [] else Le(fs[0].0, fs[0].1) + Enc(fs[1..])
  }

  function Dec(ws: seq<nat>, b: bytes): seq<nat> {
    if ws == [] || |b| < ws[0] then [] else [FromLe(b[..ws[0]])] + Dec(ws[1..], b[ws[0]..])
  }

  function Widths(fs: seq<Field>): (ws: seq<nat>)
    ensures |ws| == |fs|
  {
    seq(|fs|, i requires 0 <= i < |fs| => fs[i].1)
  }

  function Values(fs: seq<Field>): (vs: seq<nat>)
    ensures |vs| == |fs|
  {
    seq(|fs|, i requires 0 <= i < |fs| => fs[i].0)
  }

  function Sum(ws: seq<nat>): nat {
    if ws == [] then 0 else ws[0] + Sum(ws[1..])
  }

  lemma Headed(fs: seq<Field>)
    requires fs != []
    ensures Widths(fs)[0] == fs[0].1 && Widths(fs)[1..] == Widths(fs[1..])
    ensures Values(fs) == [fs[0].0] + Values(fs[1..])
  {
  }

  /** Every value fits its width. */
  ghost predicate AllFit(fs: seq<Field>) {
    fs == [] || (fs[0].0 < Pow256(fs[0].1) && AllFit(fs[1..]))
  }

  lemma {:induction false} FitEach(fs: seq<Field>)
    requires forall i :: 0 <= i < |fs| ==> fs[i].0 < Pow256(fs[i].1)
    ensures AllFit(fs)
  {
    if fs != [] {
      FitEach(fs[1..]);
    }
  }

  lemma {:induction false} DecEnc(fs: seq<Field>, rest: bytes)
    requires AllFit(fs)
    ensures Dec(Widths(fs), Enc(fs) + rest) == Values(fs) && |Enc(fs)| == Sum(Widths(fs))
  {
    if fs != [] {
      Headed(fs);
      DecEnc(fs[1..], rest);
      LeRoundTrip(fs[0].0, fs[0].1);
      Split(Le(fs[0].0, fs[0].1), Enc(fs[1..]), rest);
    }
  }

  lemma Split(a: bytes, b: bytes, c: bytes)
    ensures (a + b + c)[..|a|] == a && (a + b + c)[|a|..] == b + c
  {
  }

  // -------------------------------------------------------------- records

  const NAMES := 12

  predicate KnownClass(class_: nat) {
    class_ == 1 || class_ == 2 || class_ == 3 || class_ == NAMES || class_ == 37 || class_ == 38
  }

  function Tail(class_: nat, ino: nat): seq<Field> {
    if class_ == 2 then [(0, 4)]
    else if class_ == 3 then [(0, 4), (0, 1), (0, 1), (0, 24)]
    else if class_ == 37 then [(0, 4), (0, 1), (0, 1), (0, 24), (0, 2), (ino, 8)]
    else if class_ == 38 then [(0, 4), (0, 4), (ino, 8)]
    else []
  }

  /** Everything of a record after NextEntryOffset, up to the name. */
  function Fields(class_: nat, e: Entry): seq<Field> {
    if class_ == NAMES then [(0, 4), (|e.name|, 4)]
    else
      [(0, 4), (e.crtime, 8), (e.atime, 8), (e.mtime, 8), (e.ctime, 8), (e.size, 8), (e.alloc, 8), (e.attrs, 4),
       (|e.name|, 4)] + Tail(class_, e.ino)
  }

  /** A record after NextEntryOffset, padded so that the whole is a multiple of eight. */
  function Body(class_: nat, e: Entry): (t: bytes)
    ensures (4 + |t|) % 8 == 0
  {
    Padded(Bare(class_, e))
  }

  function Padded(b: bytes): (t: bytes)
    ensures (4 + |t|) % 8 == 0
  {
    PadUp(4 + |b|);
    b + Zeros(Pad8(4 + |b|))
  }

  function Bare(class_: nat, e: Entry): bytes { Enc(Fields(class_, e)) + e.name }

  // --------------------------------------------------------- what is read

  /** An entry as a reply of some class shows it. */
  datatype Shown = Shown(vals: seq<nat>, name: bytes)

  function ShownAs(class_: nat, e: Entry): Shown { Shown(Values(Fields(class_, e)), e.name) }

  function ClassWidths(class_: nat): seq<nat> {
    var head := [4, 8, 8, 8, 8, 8, 8, 4, 4];
    if class_ == NAMES then [4, 4]
    else if class_ == 2 then head + [4]
    else if class_ == 3 then head + [4, 1, 1, 24]
    else if class_ == 37 then head + [4, 1, 1, 24, 2, 8]
    else if class_ == 38 then head + [4, 4, 8]
    else head
  }

  /** Where the name length stands among the fields. */
  function NameIndex(class_: nat): nat { if class_ == NAMES then 1 else 8 }

  /** A client's reading of one record: the fixed fields, then as many name bytes as they say. */
  function ReadBody(class_: nat, b: bytes): Shown {
    ReadWith(ClassWidths(class_), NameIndex(class_), b)
  }

  function ReadWith(ws: seq<nat>, k: nat, b: bytes): Shown {
    var vals, at := Dec(ws, b), Sum(ws);
    if k < |vals| && at + vals[k] <= |b| then Shown(vals, b[at..at + vals[k]]) else Shown(vals, [])
  }

  lemma FieldsTyped(class_: nat, e: Entry)
    requires e.Typed()
    ensures AllFit(Fields(class_, e))
  {
    PowWidths();
    FitEach(Fields(class_, e));
  }

  /** A record reads back as the entry it was written from. */
  lemma ReadBack(class_: nat, e: Entry)
    requires e.Typed() && KnownClass(class_)
    ensures ReadBody(class_, Body(class_, e)) == ShownAs(class_, e)
  {
    FieldsTyped(class_, e);
    FieldWidths(class_, e);
    NameValue(class_, e);
    ReadFields(Fields(class_, e), ClassWidths(class_), NameIndex(class_), e.name);
  }

  lemma ReadFields(fs: seq<Field>, ws: seq<nat>, k: nat, name: bytes)
    requires AllFit(fs) && ws == Widths(fs) && k < |fs| && Values(fs)[k] == |name|
    ensures ReadWith(ws, k, Padded(Enc(fs) + name)) == Shown(Values(fs), name)
  {
    var pad := Zeros(Pad8(4 + |Enc(fs) + name|));
    DecEnc(fs, name + pad);
    Regroup(Enc(fs), name, pad);
  }

  lemma Regroup(a: bytes, b: bytes, c: bytes)
    ensures a + b + c == a + (b + c) && (a + b + c)[|a|..|a| + |b|] == b
  {
  }

  lemma FieldWidths(class_: nat, e: Entry)
    requires KnownClass(class_)
    ensures Widths(Fields(class_, e)) == ClassWidths(class_)
  {
  }

  lemma NameValue(class_: nat, e: Entry)
    requires KnownClass(class_)
    ensures NameIndex(class_) < |Fields(class_, e)| && Values(Fields(class_, e))[NameIndex(class_)] == |e.name|
  {
  }

  // ------------------------------------------------------------ as a codec

  /** How entries are written after their NextEntryOffset, read back and shown, class by class. */
  datatype Codec = Codec(
    known: nat -> bool, enc: (nat, Entry) -> bytes, read: (nat, bytes) -> Shown, show: (nat, Entry) -> Shown)

  function Records(): Codec {
    Codec((c: nat) => KnownClass(c), (c: nat, e: Entry) => Body(c, e), (c: nat, b: bytes) => ReadBody(c, b),
          (c: nat, e: Entry) => ShownAs(c, e))
  }

  /** What is written is read back, and with its 4-byte link fills a multiple of eight bytes. */
  ghost predicate Faithful(k: Codec) {
    && (forall c: nat, e: Entry :: (4 + |k.enc(c, e)|) % 8 == 0)
    && (forall c: nat, e: Entry :: k.known(c) && e.Typed() ==> k.read(c, k.enc(c, e)) == k.show(c, e))
  }

  lemma RecordsFaithful()
    ensures Faithful(Records())
  {
    var k := Records();
    forall c: nat, e: Entry ensures (4 + |k.enc(c, e)|) % 8 == 0 {
      assert k.enc(c, e) == Body(c, e);
    }
    forall c: nat, e: Entry | k.known(c) && e.Typed() ensures k.read(c, k.enc(c, e)) == k.show(c, e) {
      ReadBack(c, e);
    }
  }
}

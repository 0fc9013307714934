/** The parser engine (`HeapParserEngineImpl`): loops that advance the reader, count
    the bytes they have read and fill the heap.  Each method is proved against the
    function of `HprofFormat` that says what it does on any bytes; a fatal exit is
    the result `ok == false`.
 */
module HprofEngine {
  import opened HprofHeap
  import opened HprofReader
  import opened HprofFormat
  import HprofDump
  import HprofTables

  class Engine {
    const reader: Reader
    var heap: Heap

    constructor (source: seq<byte>)
      ensures fresh(reader) && reader.buffer == source && reader.cursor == 0 && heap == EMPTY_HEAP
    {
      reader := new Reader(source);
      heap := EMPTY_HEAP;
    }

    ghost predicate InBuffer()
      reads reader
    {
      reader.cursor <= |reader.buffer|
    }

    method ReadValueType() returns (ok: bool, t: ValueType)
      requires InBuffer()
      modifies reader
      ensures ok ==> ReadType(reader.buffer, old(reader.cursor)) == Done(t, reader.cursor) && InBuffer()
      ensures !ok ==> ReadType(reader.buffer, old(reader.cursor)).Fatal?
    {
      var c;
      t := Object;
      ok, c := reader.Read(1);
      if ok {
        match TypeOf(c) {
          case None => ok := false;
          case Some(v) => t := v;
        }
      }
    }

    /** Skips one constant pool entry. */
    method SkipConstant(n: nat) returns (ok: bool, size: int)
      requires InBuffer()
      modifies reader
      ensures ok ==> && ParseConstant(reader.buffer, old(reader.cursor), n) == Done((), reader.cursor)
                     && InBuffer() && size == reader.cursor - old(reader.cursor)
      ensures !ok ==> ParseConstant(reader.buffer, old(reader.cursor), n).Fatal?
    {
      size := 0;
      ok := reader.Skip(2);
      if !ok { return; }
      size := size + 2;
      var t;
      ok, t := ReadValueType();
      if !ok { return; }
      size := size + 1;
      ok := reader.Skip(SizeIn(t, n));
      size := size + SizeIn(t, n);
    }

    method SkipConstants(count: nat, n: nat) returns (ok: bool, size: int)
      requires InBuffer()
      modifies reader
      ensures ok ==> && ParseConstants(reader.buffer, old(reader.cursor), count, n) == Done((), reader.cursor)
                     && InBuffer() && size == reader.cursor - old(reader.cursor)
      ensures !ok ==> ParseConstants(reader.buffer, old(reader.cursor), count, n).Fatal?
    {
      size := 0;
      ghost var goal := ParseConstants(reader.buffer, reader.cursor, count, n);
      for i := 0 to count
        invariant InBuffer() && size == reader.cursor - old(reader.cursor)
        invariant ParseConstants(reader.buffer, reader.cursor, count - i, n) == goal
      {
        var k;
        ok, k := SkipConstant(n);
        if !ok { return; }
        size := size + k;
      }
      ok := true;
    }

    /** One static field of class `c`; no static field is excluded. */
    method ParseStaticField(c: Id) returns (ok: bool, size: int)
      requires InBuffer()
      modifies reader, this`heap
      ensures ok ==> && ParseStatic(reader.buffer, old(reader.cursor), c, old(heap)) == Done(heap, reader.cursor)
                     && InBuffer() && size == reader.cursor - old(reader.cursor)
      ensures !ok ==> ParseStatic(reader.buffer, old(reader.cursor), c, old(heap)).Fatal?
    {
      var name, t, x, n := 0, Object, 0, heap.idSize;
      size := 0;
      ok, name := reader.Read(n);
      if !ok { return; }
      size := size + n;
      ok, t := ReadValueType();
      if !ok { return; }
      size := size + 1;
      if t.Object? {
        SliceValue(reader.buffer, reader.cursor, n);
        ok, x := reader.Read(n);
        if !ok { return; }
        size := size + n;
        heap := AddReference(heap, c, FieldRef(true, name), x);
      } else {
        ok := reader.Skip(TypeSize(t));
        size := size + TypeSize(t);
      }
    }

    method ParseStaticFields(count: nat, c: Id) returns (ok: bool, size: int)
      requires InBuffer()
      modifies reader, this`heap
      ensures ok ==> && ParseStatics(reader.buffer, old(reader.cursor), count, c, old(heap)) == Done(heap, reader.cursor)
                     && InBuffer() && size == reader.cursor - old(reader.cursor)
      ensures !ok ==> ParseStatics(reader.buffer, old(reader.cursor), count, c, old(heap)).Fatal?
    {
      size := 0;
      ghost var goal := ParseStatics(reader.buffer, reader.cursor, count, c, heap);
      for i := 0 to count
        invariant InBuffer() && size == reader.cursor - old(reader.cursor)
        invariant ParseStatics(reader.buffer, reader.cursor, count - i, c, heap) == goal
      {
        var k;
        ok, k := ParseStaticField(c);
        if !ok { return; }
        size := size + k;
      }
      ok := true;
    }

    /** The instance fields of class `c`. */
    method ParseInstanceField(n: nat) returns (ok: bool, field: Field, size: int)
      requires InBuffer()
      modifies reader
      ensures ok ==> && ParseField(reader.buffer, old(reader.cursor), n) == Done(field, reader.cursor)
                     && InBuffer() && size == reader.cursor - old(reader.cursor)
      ensures !ok ==> ParseField(reader.buffer, old(reader.cursor), n).Fatal?
    {
      field, size := Field(0, Object), 0;
      var name, t;
      ok, name := reader.Read(n);
      if !ok { return; }
      ok, t := ReadValueType();
      field, size := Field(name, t), n + 1;
    }

    method ParseInstanceFields(count: nat, c: Id) returns (ok: bool, size: int)
      requires InBuffer()
      modifies reader, this`heap
      ensures ok ==> && ParseFields(reader.buffer, old(reader.cursor), count, c, old(heap)) == Done(heap, reader.cursor)
                     && InBuffer() && size == reader.cursor - old(reader.cursor)
      ensures !ok ==> ParseFields(reader.buffer, old(reader.cursor), count, c, old(heap)).Fatal?
    {
      size := 0;
      var n := heap.idSize;
      ghost var goal := ParseFields(reader.buffer, reader.cursor, count, c, heap);
      for i := 0 to count
        invariant InBuffer() && heap.idSize == n && size == reader.cursor - old(reader.cursor)
        invariant ParseFields(reader.buffer, reader.cursor, count - i, c, heap) == goal
      {
        var field, bytes;
        ok, field, bytes := ParseInstanceField(n);
        if !ok { return; }
        size := size + bytes;
        heap := AddField(heap, c, field);
      }
      ok := true;
    }

    method ParseArrayElements(count: nat, a: Id) returns (ok: bool)
      requires InBuffer()
      modifies reader, this`heap
      ensures ok ==> && ParseElements(reader.buffer, old(reader.cursor), count, 0, a, old(heap)) == Done(heap, reader.cursor)
                     && InBuffer() && reader.cursor == old(reader.cursor) + count * old(heap).idSize
      ensures !ok ==> ParseElements(reader.buffer, old(reader.cursor), count, 0, a, old(heap)).Fatal?
    {
      var n := heap.idSize;
      ghost var goal := ParseElements(reader.buffer, reader.cursor, count, 0, a, heap);
      for i := 0 to count
        invariant InBuffer() && heap.idSize == n && reader.cursor == old(reader.cursor) + i * n
        invariant ParseElements(reader.buffer, reader.cursor, count - i, i, a, heap) == goal
      {
        var x;
        ok, x := reader.Read(n);
        if !ok { return; }
        heap := AddReference(heap, a, ElementRef(i), x);
      }
      ok := true;
    }

    method ParseClassStart() returns (ok: bool, ids: ClassIds)
      requires InBuffer()
      modifies reader
      ensures ok ==> ParseClassIds(reader.buffer, old(reader.cursor), heap.idSize) == Done(ids, reader.cursor) && InBuffer()
      ensures ok ==> reader.cursor - old(reader.cursor) == heap.idSize + 4 + heap.idSize * 6 + 4
      ensures !ok ==> ParseClassIds(reader.buffer, old(reader.cursor), heap.idSize).Fatal?
    {
      var n, c, super := heap.idSize, 0, 0;
      ids := ClassIds(0, 0);
      ok, c := reader.Read(n);
      if !ok { return; }
      ok := reader.Skip(4);
      if !ok { return; }
      ok, super := reader.Read(n);
      if !ok { return; }
      ok := SkipIds(n);
      ids := ClassIds(c, super);
    }

    /** A class dump: 7 ids, two words and the three lists. */
    method ParseClassDump() returns (ok: bool, size: int)
      requires InBuffer()
      modifies reader, this`heap
      ensures ok ==> && ParseClass(reader.buffer, old(reader.cursor), old(heap)) == Done(heap, reader.cursor)
                     && InBuffer() && size == reader.cursor - old(reader.cursor)
      ensures !ok ==> ParseClass(reader.buffer, old(reader.cursor), old(heap)).Fatal?
    {
      var n, ids, content := heap.idSize, ClassIds(0, 0), 0;
      size := 0;
      ok, ids := ParseClassStart();
      if !ok { return; }
      heap := ClassHead(heap, ids.id, ids.super);
      ok, content := ParseLists(ids.id);
      size := n + 4 + n * 6 + 4 + content;
    }

    /** Class loader, signers, protection domain, two reserved ids, instance size. */
    method SkipIds(n: nat) returns (ok: bool)
      requires InBuffer()
      modifies reader
      ensures ok == (old(reader.cursor) + (5 * n + 4) <= |reader.buffer|)
      ensures ok ==> reader.cursor == old(reader.cursor) + (5 * n + 4)
    {
      for i := 0 to 5
        invariant reader.cursor == old(reader.cursor) + i * n && InBuffer()
      {
        ok := reader.Skip(n);
        if !ok { return; }
      }
      ok := reader.Skip(4);
    }

    method ParseLists(c: Id) returns (ok: bool, content: int)
      requires InBuffer()
      modifies reader, this`heap
      ensures ok ==> && ParseClassLists(reader.buffer, old(reader.cursor), c, old(heap)) == Done(heap, reader.cursor)
                     && InBuffer() && content == reader.cursor - old(reader.cursor)
      ensures !ok ==> ParseClassLists(reader.buffer, old(reader.cursor), c, old(heap)).Fatal?
    {
      var count, k := 0, 0;
      content := 0;
      ok, count := reader.Read(2);
      if !ok { return; }
      ok, k := SkipConstants(Count(count), heap.idSize);
      if !ok { return; }
      content := content + 2 + k;
      ok, count := reader.Read(2);
      if !ok { return; }
      ok, k := ParseStaticFields(Count(count), c);
      if !ok { return; }
      content := content + 2 + k;
      ok, count := reader.Read(2);
      if !ok { return; }
      ok, k := ParseInstanceFields(Count(count), c);
      content := content + 2 + k;
    }

    method ParseInstanceDump() returns (ok: bool, size: int)
      requires InBuffer()
      modifies reader, this`heap
      ensures ok ==> && ParseInstance(reader.buffer, old(reader.cursor), old(heap)) == Done(heap, reader.cursor)
                     && InBuffer() && size == reader.cursor - old(reader.cursor)
      ensures !ok ==> ParseInstance(reader.buffer, old(reader.cursor), old(heap)).Fatal?
    {
      var n, x, c, k, data := heap.idSize, 0, 0, 0, [];
      size := 0;
      ok, x := reader.Read(n);
      if !ok { return; }
      ok := reader.Skip(4);
      if !ok { return; }
      ok, c := reader.Read(n);
      if !ok { return; }
      ok, k := reader.Read(4);
      if !ok { return; }
      ok, data := reader.Extract(Count(k));
      heap := ApplyInstance(heap, x, c, data);
      size := n + 4 + n + 4 + Count(k);
    }

    method ParseObjectArrayDump() returns (ok: bool, size: int)
      requires InBuffer()
      modifies reader, this`heap
      ensures ok ==> && ParseObjectArray(reader.buffer, old(reader.cursor), old(heap)) == Done(heap, reader.cursor)
                     && InBuffer() && size == reader.cursor - old(reader.cursor)
      ensures !ok ==> ParseObjectArray(reader.buffer, old(reader.cursor), old(heap)).Fatal?
    {
      var n, a, k, c := heap.idSize, 0, 0, 0;
      size := 0;
      ok, a := reader.Read(n);
      if !ok { return; }
      ok := reader.Skip(4);
      if !ok { return; }
      ok, k := reader.Read(4);
      if !ok { return; }
      ok, c := reader.Read(n);
      if !ok { return; }
      heap := ArrayHead(heap, a, c);
      ok := ParseArrayElements(Count(k), a);
      size := n + 4 + 4 + n + Count(k) * n;
    }

    method ParsePrimitiveArrayDump() returns (ok: bool, size: int)
      requires InBuffer()
      modifies reader, this`heap
      ensures ok ==> && ParsePrimitiveArray(reader.buffer, old(reader.cursor), old(heap)) == Done(heap, reader.cursor)
                     && InBuffer() && size == reader.cursor - old(reader.cursor)
      ensures !ok ==> ParsePrimitiveArray(reader.buffer, old(reader.cursor), old(heap)).Fatal?
    {
      var n, a, k, t, data := heap.idSize, 0, 0, Object, [];
      size := 0;
      ok, a := reader.Read(n);
      if !ok { return; }
      ok := reader.Skip(4);
      if !ok { return; }
      ok, k := reader.Read(4);
      if !ok { return; }
      ok, t := ReadValueType();
      if !ok || t.Object? { return false, size; }
      var bytes := Count(k * TypeSize(t));
      ok, data := reader.Extract(bytes);
      heap := ApplyPrimitiveArray(heap, a, ArrayData(t, data));
      size := n + 4 + 4 + 1 + bytes;
    }

    method ParseNoDataArrayDump() returns (ok: bool, size: int)
      requires InBuffer()
      modifies reader, this`heap
      ensures ok ==> && ParseNoDataArray(reader.buffer, old(reader.cursor), old(heap)) == Done(heap, reader.cursor)
                     && InBuffer() && size == reader.cursor - old(reader.cursor)
      ensures !ok ==> ParseNoDataArray(reader.buffer, old(reader.cursor), old(heap)).Fatal?
    {
      var n, a := heap.idSize, 0;
      size := 0;
      ok, a := reader.Read(n);
      if !ok { return; }
      heap := heap.(instanceTypes := heap.instanceTypes[a := PrimitiveArray]);
      ok := reader.Skip(4);
      if !ok { return; }
      ok := reader.Skip(4);
      if !ok { return; }
      ok := reader.Skip(1);
      size := n + 4 + 4 + 1;
    }

    /** The sixteen kinds of root sub-record. */
    method ParseRootDump(t: RootType) returns (ok: bool, size: int)
      requires InBuffer()
      modifies reader, this`heap
      ensures ok ==> && ParseRoot(reader.buffer, old(reader.cursor), t, old(heap)) == Done(heap, reader.cursor)
                     && InBuffer() && size == reader.cursor - old(reader.cursor)
      ensures !ok ==> ParseRoot(reader.buffer, old(reader.cursor), t, old(heap)).Fatal?
    {
      var n, x, serial := heap.idSize, 0, 0;
      size := 0;
      ok, x := reader.Read(n);
      if !ok { return; }
      if x != 0 { heap := MarkRoot(heap, x, t); }
      ok, serial, size := SkipRootExtra(t, n);
      if !ok { return; }
      if x != 0 {
        if t.JavaFrame? {
          heap := heap.(threadSerials := heap.threadSerials[x := serial]);
        } else if t.ThreadObject? {
          heap := heap.(threadObjects := heap.threadObjects[serial := x]);
        }
      }
      size := n + size;
    }

    /** What follows the id in each kind of root. */
    method SkipRootExtra(t: RootType, n: nat) returns (ok: bool, serial: int, size: int)
      requires InBuffer()
      modifies reader
      ensures var r := Take(reader.buffer, old(reader.cursor), RootExtra(t, n));
              if ok then && r.Done? && r.pos == reader.cursor && InBuffer() && size == reader.cursor - old(reader.cursor)
                         && (t.JavaFrame? || t.ThreadObject? ==> serial == Serial(r.value))
              else r.Fatal?
    {
      serial, size, ok := 0, 0, true;
      if t.JavaFrame? || t.ThreadObject? {
        SerialHere(reader.buffer, reader.cursor);
        ok, serial := reader.Read(4);
        if !ok { return; }
        ok := reader.Skip(4);
        size := 4 + 4;
      } else if t.JniGlobal? {
        ok := reader.Skip(n);
        size := n;
      } else if t.JniLocal? || t.JniMonitor? {
        ok := reader.Skip(4);
        if !ok { return; }
        ok := reader.Skip(4);
        size := 4 + 4;
      } else if t.NativeStack? || t.ThreadBlock? {
        ok := reader.Skip(4);
        size := 4;
      }
    }

    method ParseSubRecord(tag: int) returns (ok: bool, size: int)
      requires InBuffer()
      modifies reader, this`heap
      ensures ok ==> && ParseSub(reader.buffer, old(reader.cursor), tag, old(heap)) == Done(heap, reader.cursor)
                     && InBuffer() && size == reader.cursor - old(reader.cursor)
      ensures !ok ==> ParseSub(reader.buffer, old(reader.cursor), tag, old(heap)).Fatal?
    {
      if RootOf(tag).Some? {
        ok, size := ParseRootDump(RootOf(tag).value);
      } else if tag == CLASS_DUMP {
        ok, size := ParseClassDump();
      } else if tag == INSTANCE_DUMP {
        ok, size := ParseInstanceDump();
      } else if tag == OBJECT_ARRAY_DUMP {
        ok, size := ParseObjectArrayDump();
      } else if tag == PRIMITIVE_ARRAY_DUMP {
        ok, size := ParsePrimitiveArrayDump();
      } else if tag == PRIMITIVE_ARRAY_NO_DATA {
        ok, size := ParseNoDataArrayDump();
      } else if tag == DUMP_INFO {
        size := 4 + heap.idSize;
        ok := reader.Skip(4);
        if ok { ok := reader.Skip(heap.idSize); }
      } else {
        return false, 0;
      }
    }

    /** The sub-records of one record.  The loop trusts the sizes that the sub-record
        parsers return, and they are right: it stops where the record stops. */
    method ParseHeapContent(length: nat) returns (ok: bool)
      requires InBuffer()
      modifies reader, this`heap
      ensures ok ==> && ParseContent(reader.buffer, old(reader.cursor), old(reader.cursor) + length, old(heap))
                        == Done(heap, reader.cursor)
                     && InBuffer()
      ensures !ok ==> ParseContent(reader.buffer, old(reader.cursor), old(reader.cursor) + length, old(heap)).Fatal?
    {
      var bytesRead := 0;
      ghost var start := reader.cursor;
      ghost var goal := ParseContent(reader.buffer, start, start + length, heap);
      while bytesRead < length
        invariant InBuffer() && bytesRead == reader.cursor - start
        invariant ParseContent(reader.buffer, reader.cursor, start + length, heap) == goal
        decreases |reader.buffer| - reader.cursor
      {
        ContentTurn(reader.buffer, reader.cursor, start + length, heap);
        var k;
        ok, k := ParseTagged();
        if !ok { return; }
        bytesRead := bytesRead + k;
      }
      ok := true;
    }

    /** A tag and the sub-record it announces. */
    method ParseTagged() returns (ok: bool, size: int)
      requires InBuffer()
      modifies reader, this`heap
      ensures ok ==> && TaggedSub(reader.buffer, old(reader.cursor), old(heap)) == Done(heap, reader.cursor)
                     && InBuffer() && size == reader.cursor - old(reader.cursor) > 0
      ensures !ok ==> TaggedSub(reader.buffer, old(reader.cursor), old(heap)).Fatal?
    {
      var tag;
      size := 0;
      ok, tag := reader.Read(1);
      if !ok { return; }
      ok, size := ParseSubRecord(tag);
      size := 1 + size;
    }

    method ParseOneRecord(tag: int, length: nat) returns (ok: bool)
      requires InBuffer()
      modifies reader, this`heap
      ensures ok ==> ParseRecord(reader.buffer, old(reader.cursor), tag, length, old(heap)) == Done(heap, reader.cursor) && InBuffer()
      ensures !ok ==> ParseRecord(reader.buffer, old(reader.cursor), tag, length, old(heap)).Fatal?
    {
      var n, id, name, text := heap.idSize, 0, 0, [];
      if tag == STRINGS {
        if length < n { return false; }
        ok, id := reader.Read(n);
        if !ok { return; }
        ok, text := reader.Extract(length - n);
        heap := heap.(strings := heap.strings[id := text]);
      } else if tag == LOAD_CLASS {
        ok := reader.Skip(4);
        if !ok { return; }
        ok, id := reader.Read(n);
        if !ok { return; }
        ok := reader.Skip(4);
        if !ok { return; }
        ok, name := reader.Read(n);
        heap := heap.(classNames := heap.classNames[id := name]);
      } else if tag == HEAP_DUMP || tag == HEAP_DUMP_SEGMENT {
        ok := ParseHeapContent(length);
      } else {
        ok := reader.Skip(length);
      }
    }

    method ReadNullTerminatedString() returns (ok: bool, s: seq<byte>)
      requires InBuffer()
      modifies reader
      ensures ok ==> CString(reader.buffer, old(reader.cursor)) == Done(s, reader.cursor) && InBuffer()
      ensures !ok ==> CString(reader.buffer, old(reader.cursor)).Fatal?
    {
      s := [];
      ghost var goal := CString(reader.buffer, reader.cursor);
      assert goal.Done? ==> s + goal.value == goal.value;
      while true
        invariant InBuffer()
        invariant match CString(reader.buffer, reader.cursor)
                  case Fatal => goal.Fatal?
                  case Done(rest, p) => goal == Done(s + rest, p)
        decreases |reader.buffer| - reader.cursor
      {
        var current;
        ghost var here := reader.cursor;
        ByteValue(reader.buffer, here);
        ok, current := reader.Read(1);
        if !ok { return; }
        if current == 0 {
          assert s + [] == s;
          return;
        }
        s := s + [reader.buffer[reader.cursor - 1]];
        assert forall rest: seq<byte> :: s[..|s| - 1] + ([s[|s| - 1]] + rest) == s + rest;
      }
    }

    /** The records of the file, until the end record. */
    method ParseAllRecords() returns (ok: bool)
      requires InBuffer()
      modifies reader, this`heap
      ensures ok ==> ParseRecords(reader.buffer, old(reader.cursor), old(heap)) == Done(heap, reader.cursor)
      ensures !ok ==> ParseRecords(reader.buffer, old(reader.cursor), old(heap)).Fatal?
    {
      var tag, length := 0, 0;
      ghost var goal := ParseRecords(reader.buffer, reader.cursor, heap);
      while true
        invariant InBuffer() && ParseRecords(reader.buffer, reader.cursor, heap) == goal
        decreases |reader.buffer| - reader.cursor
      {
        ok, tag := reader.Read(1);
        if !ok { return; }
        ok := reader.Skip(4);
        if !ok { return; }
        ok, length := reader.Read(4);
        if !ok { return; }
        if tag == HEAP_DUMP_END {
          return;
        }
        ok := ParseOneRecord(tag, Count(length));
        if !ok { return; }
      }
    }

    /** The whole file, up to the pass over the instances. */
    method Parse() returns (ok: bool)
      requires reader.cursor == 0 && heap == EMPTY_HEAP
      modifies reader, this`heap
      ensures ok ==> ParseFile(reader.buffer) == Done(heap, reader.cursor)
      ensures !ok ==> ParseFile(reader.buffer).Fatal?
    {
      var version, n := [], 0;
      ok, version := ReadNullTerminatedString();
      if !ok || version !in VERSIONS { return false; }
      ok, n := reader.Read(4);
      if !ok || n == 0 { return false; }
      heap := heap.(idSize := Count(n));
      ok := reader.Skip(8);
      if !ok { return; }
      ok := ParseAllRecords();
    }
  }

  lemma SerialHere(b: seq<byte>, pos: nat)
    requires pos <= |b|
    ensures pos + 8 <= |b| ==> Serial(b[pos..pos + 8]) == Value(b, pos, 4)
  {
    if pos + 8 <= |b| { SliceValuePrefix(b, pos, 8, 4); }
  }

  lemma ByteValue(b: seq<byte>, pos: nat)
    requires pos <= |b|
    ensures pos < |b| ==> Value(b, pos, 1) == b[pos]
  {
    if pos < |b| { assert Value(b, pos, 0) == 0; }
  }

  lemma {:induction false} SliceValue(b: seq<byte>, pos: nat, n: nat)
    requires pos <= |b|
    ensures pos + n <= |b| ==> Value(b[pos..pos + n], 0, n) == Value(b, pos, n)
  {
    if pos + n <= |b| { SliceValuePrefix(b, pos, n, n); }
  }

  lemma {:induction false} SliceValuePrefix(b: seq<byte>, pos: nat, n: nat, k: nat)
    requires k <= n && pos + n <= |b|
    ensures Value(b[pos..pos + n], 0, k) == Value(b, pos, k)
  {
    if k > 0 { SliceValuePrefix(b, pos, n, k - 1); }
  }

  /** The engine run on the encoding of a well-formed dump. */
  method ParseEncoded(d: HprofDump.Dump) returns (ok: bool, heap: Heap)
    requires HprofDump.GoodDump(d)
    ensures ok && heap == HprofDump.Meaning(d) && HprofTables.Says(heap, d.idSize, d.records)
  {
    var engine := new Engine(HprofDump.Encode(d));
    ok := engine.Parse();
    heap := engine.heap;
    HprofDump.ParseOfEncode(d);
    HprofTables.MeaningSays(d);
  }
}

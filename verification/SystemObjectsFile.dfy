/** The file with the system objects of a database: seven sections, one per registry, each with a
    count and the sized records of the system range. */
module SystemObjectsFile {
  import opened Bytes

  const MAX_OBJECT_SIZE: nat := 0x1_0000

  /** How records of one kind are turned into bytes and back. `norm` is what is left of a record after
      a round trip. */
  datatype Codec<!T> = Codec(encode: (nat, T) -> seq<byte>, decode: seq<byte> -> Option<(nat, T)>, norm: T -> T)

  ghost predicate RoundTrips<T>(c: Codec<T>, objects: map<nat, T>) {
    forall id :: id in objects ==> c.decode(c.encode(id, objects[id])) == Some((id, c.norm(objects[id])))
  }

  function SystemPart<T>(objects: map<nat, T>, first: nat): map<nat, T> {
    map id | id in objects && id < first :: objects[id]
  }

  // ---- Bytes of a section ----

  function ObjectBytes<T>(c: Codec<T>, id: nat, x: T): seq<byte> {
    EncodeUInt(|c.encode(id, x)|, 4) + c.encode(id, x)
  }

  /** The objects in the order in which the registry gives them. */
  function ObjectsBytes<T>(c: Codec<T>, objects: map<nat, T>, order: seq<nat>): seq<byte>
    requires forall id :: id in order ==> id in objects
  {
    if order == [] then []
    else ObjectBytes(c, order[0], objects[order[0]]) + ObjectsBytes(c, objects, order[1..])
  }

  function SectionBytes<T>(c: Codec<T>, objects: map<nat, T>, order: seq<nat>): seq<byte>
    requires forall id :: id in order ==> id in objects
  {
    EncodeUInt(|order|, 4) + ObjectsBytes(c, objects, order)
  }

  /** `order` lists the keys of `objects`, each once. */
  ghost predicate Lists<T>(order: seq<nat>, objects: map<nat, T>) {
    && (forall id :: id in order <==> id in objects)
    && (forall i, j :: 0 <= i < j < |order| ==> order[i] != order[j])
  }

  ghost predicate FitsLimit<T>(c: Codec<T>, objects: map<nat, T>) {
    forall id :: id in objects ==> |c.encode(id, objects[id])| <= MAX_OBJECT_SIZE
  }

  ghost predicate FitsWords<T>(c: Codec<T>, objects: map<nat, T>) {
    |objects| < UINT32_LIMIT && forall id :: id in objects ==> |c.encode(id, objects[id])| < UINT32_LIMIT
  }

  // ---- Reading a section ----

  function ReadWord(file: seq<byte>, pos: nat): (r: Option<nat>)
    ensures r.Some? <==> pos + 4 <= |file|
  {
    if pos + 4 > |file| then None else Some(DecodeUInt(file[pos..pos + 4]))
  }

  /** Reads `n` objects into `objects`, which keeps the first of several with one id. */
  function ReadObjects<T>(c: Codec<T>, file: seq<byte>, pos: nat, n: nat,
                          objects: map<nat, T>): Option<(map<nat, T>, nat)>
    decreases n
  {
    if n == 0 then Some((objects, pos))
    else
      match ReadWord(file, pos)
      case None => None
      case Some(size) =>
        if size > MAX_OBJECT_SIZE || pos + 4 + size > |file| then None
        else
          match c.decode(file[pos + 4..pos + 4 + size])
          case None => None
          case Some((id, x)) =>
            ReadObjects(c, file, pos + 4 + size, n - 1, if id in objects then objects else objects[id := x])
  }

  function ReadSection<T>(c: Codec<T>, file: seq<byte>, pos: nat): Option<(map<nat, T>, nat)> {
    match ReadWord(file, pos)
    case None => None
    case Some(n) =>
      match ReadObjects(c, file, pos + 4, n, map[])
      case None => None
      case Some((objects, end)) => if |objects| != n then None else Some((objects, end))
  }

  // ---- Round trip of a section ----

  function Restored<T>(c: Codec<T>, objects: map<nat, T>): map<nat, T> {
    map id | id in objects :: c.norm(objects[id])
  }

  lemma WordBack(pre: seq<byte>, n: nat, post: seq<byte>)
    requires n < UINT32_LIMIT
    ensures ReadWord(pre + EncodeUInt(n, 4) + post, |pre|) == Some(n)
  {
    UInt32RoundTrip(n);
    var file := pre + EncodeUInt(n, 4) + post;
    assert file[|pre|..|pre| + 4] == EncodeUInt(n, 4);
  }

  ghost predicate AllFit<T>(c: Codec<T>, objects: map<nat, T>, order: seq<nat>)
    requires forall id :: id in order ==> id in objects
  {
    forall i :: 0 <= i < |order| ==> |c.encode(order[i], objects[order[i]])| <= MAX_OBJECT_SIZE
  }

  function NormOf<T>(c: Codec<T>, objects: map<nat, T>, order: seq<nat>): map<nat, T>
    requires forall id :: id in order ==> id in objects
  {
    map id | id in order :: c.norm(objects[id])
  }

  /** Reading one object that lies at the end of `pre`. */
  lemma ObjectBack<T>(c: Codec<T>, id: nat, x: T, pre: seq<byte>, post: seq<byte>, n: nat, found: map<nat, T>)
    requires c.decode(c.encode(id, x)) == Some((id, c.norm(x))) && |c.encode(id, x)| < UINT32_LIMIT && n > 0
             && id !in found
    ensures var file := pre + ObjectBytes(c, id, x) + post;
            ReadObjects(c, file, |pre|, n, found) ==
            if |c.encode(id, x)| > MAX_OBJECT_SIZE then None
            else ReadObjects(c, file, |pre + ObjectBytes(c, id, x)|, n - 1, found[id := c.norm(x)])
  {
    hide EncodeUInt, ReadObjects, ReadWord;
    var bytes, head := c.encode(id, x), EncodeUInt(|c.encode(id, x)|, 4);
    var file := pre + ObjectBytes(c, id, x) + post;
    assert file == pre + head + (bytes + post);
    WordBack(pre, |bytes|, bytes + post);
    Between(pre + head, bytes, post);
    ReadObjectsStep(c, file, |pre|, n, found);
  }

  lemma Between(a: seq<byte>, b: seq<byte>, c: seq<byte>)
    ensures (a + (b + c))[|a|..|a| + |b|] == b
  {
  }

  /** Reading the objects of `order` at the end of `pre`, with those before already in `found`. */
  lemma {:induction false} ObjectsBack<T>(c: Codec<T>, objects: map<nat, T>, order: seq<nat>, pre: seq<byte>,
                                          post: seq<byte>, found: map<nat, T>)
    requires (forall id :: id in order ==> id in objects && id !in found) && RoundTrips(c, objects)
             && FitsWords(c, objects)
    requires forall i, j :: 0 <= i < j < |order| ==> order[i] != order[j]
    ensures ReadObjects(c, pre + ObjectsBytes(c, objects, order) + post, |pre|, |order|, found) ==
            if AllFit(c, objects, order) then
              Some((found + NormOf(c, objects, order), |pre| + |ObjectsBytes(c, objects, order)|))
            else None
    decreases |order|
  {
    hide ObjectBytes, ObjectsBytes, AllFit, NormOf, ReadObjects;
    if order == [] {
      NothingBack(c, objects, order, pre, post, found);
    } else {
      var id, rest := order[0], order[1..];
      var x := objects[id];
      var one, others := ObjectBytes(c, id, x), ObjectsBytes(c, objects, rest);
      ObjectsBytesStep(c, objects, order);
      ObjectBack(c, id, x, pre, others + post, |order|, found);
      ObjectsBack(c, objects, rest, pre + one, post, found[id := c.norm(x)]);
      NormOfStep(c, objects, order, found);
      AllFitStep(c, objects, order);
      assert pre + (one + others) + post == pre + one + (others + post) == pre + one + others + post;
    }
  }

  lemma NothingBack<T>(c: Codec<T>, objects: map<nat, T>, order: seq<nat>, pre: seq<byte>, post: seq<byte>,
                       found: map<nat, T>)
    requires order == []
    ensures ReadObjects(c, pre + ObjectsBytes(c, objects, order) + post, |pre|, |order|, found) ==
            Some((found + NormOf(c, objects, order), |pre| + |ObjectsBytes(c, objects, order)|))
    ensures AllFit(c, objects, order)
  {
    assert found + NormOf(c, objects, order) == found;
  }

  lemma ObjectsBytesStep<T>(c: Codec<T>, objects: map<nat, T>, order: seq<nat>)
    requires (forall id :: id in order ==> id in objects) && order != []
    ensures ObjectsBytes(c, objects, order)
            == ObjectBytes(c, order[0], objects[order[0]]) + ObjectsBytes(c, objects, order[1..])
  {
  }

  lemma AllFitStep<T>(c: Codec<T>, objects: map<nat, T>, order: seq<nat>)
    requires (forall id :: id in order ==> id in objects) && order != []
    ensures AllFit(c, objects, order) <==>
            |c.encode(order[0], objects[order[0]])| <= MAX_OBJECT_SIZE && AllFit(c, objects, order[1..])
  {
    if |c.encode(order[0], objects[order[0]])| <= MAX_OBJECT_SIZE && AllFit(c, objects, order[1..]) {
      forall i | 0 <= i < |order| ensures |c.encode(order[i], objects[order[i]])| <= MAX_OBJECT_SIZE {
        assert i > 0 ==> order[i] == order[1..][i - 1];
      }
    }
  }

  lemma NormOfStep<T>(c: Codec<T>, objects: map<nat, T>, order: seq<nat>, found: map<nat, T>)
    requires (forall id :: id in order ==> id in objects) && order != [] && order[0] !in order[1..]
    ensures found[order[0] := c.norm(objects[order[0]])] + NormOf(c, objects, order[1..])
            == found + NormOf(c, objects, order)
  {
    assert order == [order[0]] + order[1..];
  }

  lemma {:induction false} ListedCount<T>(order: seq<nat>, objects: map<nat, T>)
    requires Lists(order, objects)
    ensures |order| == |objects|
    decreases |order|
  {
    if order == [] {
      assert objects == map[] by { assert forall id :: id !in objects; }
    } else {
      var n := |order| - 1;
      assert order[n] in order;
      ListsFewer(order, objects);
      ListedCount(order[..n], objects - {order[n]});
      OneFewer(objects, order[n]);
    }
  }

  lemma ListsFewer<T>(order: seq<nat>, objects: map<nat, T>)
    requires Lists(order, objects) && order != []
    ensures Lists(order[..|order| - 1], objects - {order[|order| - 1]})
  {
    var n := |order| - 1;
    forall id ensures id in order[..n] <==> id in objects - {order[n]} {
      if id in objects - {order[n]} {
        var i :| 0 <= i < |order| && order[i] == id;
        assert order[..n][i] == id;
      }
    }
  }

  /** A section reads back, in whatever order it was written and whatever follows it, exactly when no
      record is larger than the limit. */
  lemma SectionBack<T>(c: Codec<T>, objects: map<nat, T>, order: seq<nat>, pre: seq<byte>, post: seq<byte>)
    requires Lists(order, objects) && RoundTrips(c, objects) && FitsWords(c, objects)
    ensures ReadSection(c, pre + SectionBytes(c, objects, order) + post, |pre|) ==
            if FitsLimit(c, objects) then Some((Restored(c, objects), |pre| + |SectionBytes(c, objects, order)|))
            else None
  {
    hide ObjectsBytes, ReadObjects, Restored, FitsLimit, Lists, RoundTrips, FitsWords, EncodeUInt, ReadWord;
    ListsFacts(c, order, objects);
    ListedCount(order, objects);
    FewObjects(c, objects);
    var body, head := ObjectsBytes(c, objects, order), EncodeUInt(|order|, 4);
    Regrouped(pre, head, body, post);
    assert pre + SectionBytes(c, objects, order) + post == (pre + head) + body + post;
    assert (pre + head) + body + post == pre + head + (body + post);
    WordBack(pre, |order|, body + post);
    ListedBack(c, objects, order, pre + head, post);
    RestoredCount(c, objects);
  }

  /** All objects of a section read back behind their count. */
  lemma ListedBack<T>(c: Codec<T>, objects: map<nat, T>, order: seq<nat>, pre: seq<byte>, post: seq<byte>)
    requires Lists(order, objects) && RoundTrips(c, objects) && FitsWords(c, objects)
    ensures forall id :: id in order ==> id in objects
    ensures ReadObjects(c, pre + ObjectsBytes(c, objects, order) + post, |pre|, |order|, map[]) ==
            if FitsLimit(c, objects) then Some((Restored(c, objects), |pre| + |ObjectsBytes(c, objects, order)|))
            else None
  {
    hide ObjectsBytes, ReadObjects, NormOf, AllFit, Restored, FitsLimit, Lists, RoundTrips, FitsWords;
    ListsFacts(c, order, objects);
    ObjectsBack(c, objects, order, pre, post, map[]);
    assert map[] + NormOf(c, objects, order) == NormOf(c, objects, order);
  }

  lemma RestoredCount<T>(c: Codec<T>, objects: map<nat, T>)
    ensures |Restored(c, objects)| == |objects|
  {
    assert Restored(c, objects).Keys == objects.Keys;
  }

  lemma ListsFacts<T>(c: Codec<T>, order: seq<nat>, objects: map<nat, T>)
    requires Lists(order, objects)
    ensures (forall id :: id in order ==> id in objects)
            && (forall i, j :: 0 <= i < j < |order| ==> order[i] != order[j])
    ensures NormOf(c, objects, order) == Restored(c, objects) && |Restored(c, objects)| == |objects|
    ensures AllFit(c, objects, order) <==> FitsLimit(c, objects)
  {
    assert Restored(c, objects).Keys == objects.Keys;
    if AllFit(c, objects, order) {
      forall id | id in objects ensures |c.encode(id, objects[id])| <= MAX_OBJECT_SIZE {
        var i :| 0 <= i < |order| && order[i] == id;
      }
    }
  }

  lemma FewObjects<T>(c: Codec<T>, objects: map<nat, T>)
    requires FitsWords(c, objects)
    ensures |objects| < UINT32_LIMIT
  {
  }

  // ---- Sections within a file ----

  /** From `pos` to `end` the file holds a section with `objects`, in some order. */
  ghost predicate SectionAt<T>(c: Codec<T>, objects: map<nat, T>, file: seq<byte>, pos: nat, end: nat) {
    exists order :: SectionInOrder(c, objects, file, pos, end, order)
  }

  ghost predicate SectionInOrder<T>(c: Codec<T>, objects: map<nat, T>, file: seq<byte>, pos: nat, end: nat,
                                    order: seq<nat>) {
    Lists(order, objects) && pos <= end <= |file| && file[pos..end] == SectionBytes(c, objects, order)
  }

  lemma SectionStays<T>(c: Codec<T>, objects: map<nat, T>, file: seq<byte>, file': seq<byte>, pos: nat, end: nat)
    requires SectionAt(c, objects, file, pos, end) && file <= file'
    ensures SectionAt(c, objects, file', pos, end)
  {
    hide Lists, SectionBytes;
    var order :| SectionInOrder(c, objects, file, pos, end, order);
    assert file'[pos..end] == file[pos..end];
    assert SectionInOrder(c, objects, file', pos, end, order);
  }

  /** A section of a file reads back exactly when no record is larger than the limit, and the reader
      then stands at its end. */
  lemma SectionReadsBack<T>(c: Codec<T>, objects: map<nat, T>, file: seq<byte>, pos: nat, end: nat)
    requires SectionAt(c, objects, file, pos, end) && RoundTrips(c, objects) && FitsWords(c, objects)
    ensures ReadSection(c, file, pos) == if FitsLimit(c, objects) then Some((Restored(c, objects), end)) else None
  {
    hide Lists, SectionBytes, ReadSection, RoundTrips, FitsWords, FitsLimit, Restored;
    var order :| SectionInOrder(c, objects, file, pos, end, order);
    assert file == file[..pos] + file[pos..end] + file[end..];
    SectionBack(c, objects, order, file[..pos], file[end..]);
  }

  lemma {:induction false} ObjectsBytesSnoc<T>(c: Codec<T>, objects: map<nat, T>, order: seq<nat>, id: nat)
    requires id in objects && forall j :: j in order ==> j in objects
    ensures ObjectsBytes(c, objects, order + [id]) == ObjectsBytes(c, objects, order) + ObjectBytes(c, id, objects[id])
    decreases |order|
  {
    hide ObjectBytes;
    var more := order + [id];
    if order == [] {
      assert more[1..] == [];
      assert more[0] == id;
    } else {
      assert more[1..] == order[1..] + [id] && more[0] == order[0];
      ObjectsBytesSnoc(c, objects, order[1..], id);
    }
  }

  class Serializer {
    var file: seq<byte>
    var filePos: nat

    constructor (file: seq<byte>)
      ensures this.file == file && filePos == 0
    {
      this.file, filePos := file, 0;
    }

    method Append(bytes: seq<byte>)
      requires filePos == |file|
      modifies this
      ensures filePos == |file| && file == old(file) + bytes
    {
      hide WriteAt;
      Appended(file, bytes);
      file, filePos := WriteAt(file, filePos, bytes), filePos + |bytes|;
    }

    /** Writes the objects with ids below `first`. */
    method Serialize<T>(c: Codec<T>, objects: map<nat, T>, first: nat)
      requires filePos == |file|
      modifies this
      ensures filePos == |file| && old(file) <= file
      ensures SectionAt(c, SystemPart(objects, first), file, old(filePos), filePos)
    {
      hide ObjectsBytes, ObjectBytes, EncodeUInt;
      var count := |set id | id in objects && id < first|;
      var head := EncodeUInt(count, 4);
      Append(head);
      ghost var part := SystemPart(objects, first);
      assert part.Keys == set id | id in objects && id < first;
      ghost var order: seq<nat> := [];
      NoObjectsBytes(c, part);
      assert head + ObjectsBytes(c, part, order) == head;
      var rest := objects.Keys;
      if count == 0 {
        assert part == map[];
        rest := {};
      }
      while rest != {}
        invariant rest <= objects.Keys && filePos == |file|
        invariant forall id :: id in order <==> id in part && id !in rest
        invariant forall i, j :: 0 <= i < j < |order| ==> order[i] != order[j]
        invariant file == old(file) + (head + ObjectsBytes(c, part, order))
      {
        var id :| id in rest;
        rest := rest - {id};
        if id < first {
          OneObjectBytes(c, id, part[id]);
          ObjectsBytesSnoc(c, part, order, id);
          Regrouped(old(file), head, ObjectsBytes(c, part, order), ObjectBytes(c, id, part[id]));
          Append(EncodeUInt(|c.encode(id, objects[id])|, 4) + c.encode(id, objects[id]));
          order := order + [id];
        }
      }
      ListedCount(order, part);
      SectionWritten(c, part, order, old(file), file);
    }

    /** Reads a section. */
    method Deserialize<T>(c: Codec<T>) returns (r: Option<map<nat, T>>)
      modifies this`filePos
      ensures r.None? <==> ReadSection(c, file, old(filePos)).None?
      ensures r.Some? ==> ReadSection(c, file, old(filePos)) == Some((r.value, filePos))
    {
      hide ReadWord, ReadObjects;
      var count := ReadWord(file, filePos);
      if count.None? {
        return None;
      }
      filePos := filePos + 4;
      var objects: map<nat, T> := map[];
      ghost var goal := ReadObjects(c, file, filePos, count.value, objects);
      var i := 0;
      while i < count.value
        invariant i <= count.value && goal == ReadObjects(c, file, filePos, count.value - i, objects)
      {
        ReadObjectsStep(c, file, filePos, count.value - i, objects);
        var size := ReadWord(file, filePos);
        if size.None? || size.value > MAX_OBJECT_SIZE || filePos + 4 + size.value > |file| {
          return None;
        }
        filePos := filePos + 4;
        var decoded := c.decode(file[filePos..filePos + size.value]);
        filePos := filePos + size.value;
        match decoded {
          case None =>
            return None;
          case Some((id, x)) =>
            if id !in objects {
              objects := objects[id := x];
            }
        }
        i := i + 1;
      }
      ReadObjectsEnd(c, file, filePos, objects);
      r := if |objects| != count.value then None else Some(objects);
    }
  }

  lemma SectionWritten<T>(c: Codec<T>, part: map<nat, T>, order: seq<nat>, before: seq<byte>, file: seq<byte>)
    requires Lists(order, part) && file == before + SectionBytes(c, part, order)
    ensures before <= file && SectionAt(c, part, file, |before|, |file|)
  {
    hide SectionBytes;
    assert file[|before|..|file|] == SectionBytes(c, part, order);
    assert SectionInOrder(c, part, file, |before|, |file|, order);
  }

  lemma Appended(file: seq<byte>, bytes: seq<byte>)
    ensures WriteAt(file, |file|, bytes) == file + bytes
  {
  }

  lemma NoObjectsBytes<T>(c: Codec<T>, objects: map<nat, T>)
    ensures ObjectsBytes(c, objects, []) == []
  {
  }

  lemma OneObjectBytes<T>(c: Codec<T>, id: nat, x: T)
    ensures ObjectBytes(c, id, x) == EncodeUInt(|c.encode(id, x)|, 4) + c.encode(id, x)
  {
  }

  lemma ReadObjectsEnd<T>(c: Codec<T>, file: seq<byte>, pos: nat, objects: map<nat, T>)
    ensures ReadObjects(c, file, pos, 0, objects) == Some((objects, pos))
  {
  }

  lemma ReadObjectsStep<T>(c: Codec<T>, file: seq<byte>, pos: nat, n: nat, objects: map<nat, T>)
    requires n > 0
    ensures var size := ReadWord(file, pos);
            ReadObjects(c, file, pos, n, objects) ==
            if size.None? || size.value > MAX_OBJECT_SIZE || pos + 4 + size.value > |file| then None
            else
              match c.decode(file[pos + 4..pos + 4 + size.value])
              case None => None
              case Some((id, x)) =>
                ReadObjects(c, file, pos + 4 + size.value, n - 1, if id in objects then objects else objects[id := x])
  {
  }
}

/**
  The cases of the buffer module's table-driven test, stated on the
  functions that specify `Buffer.Alloc` and `Buffer.From`. Each compares
  the `data` bytes (and `length`) directly instead of their JSON text.
 */
module BufferTest {
  import opened Wrappers
  import opened Bytes
  import opened Buffer

  /** `Buffer.alloc(5)` */
  lemma AllocEmptyCase()
    ensures NewBufferObject(AllocData(5, None)).typ == "Buffer"
    ensures NewBufferObject(AllocData(5, None)).data == [0, 0, 0, 0, 0]
  {
  }

  /** `Buffer.alloc(5, 'a')` */
  lemma AllocCharacterCase()
    ensures NewBufferObject(AllocData(5, Some(AsciiBytes("a")))).typ == "Buffer"
    ensures NewBufferObject(AllocData(5, Some(AsciiBytes("a")))).data == [97, 97, 97, 97, 97]
  {
    var a := AsciiBytes("a");
    assert a == [97];
    assert Repeat(a, 5) == [97, 97, 97, 97, 97];
  }

  /** `Buffer.alloc(10, 'abc')` */
  lemma AllocStringCase()
    ensures NewBufferObject(AllocData(10, Some(AsciiBytes("abc")))).typ == "Buffer"
    ensures NewBufferObject(AllocData(10, Some(AsciiBytes("abc")))).data
         == [97, 98, 99, 97, 98, 99, 97, 98, 99, 97]
  {
    var abc := AsciiBytes("abc");
    assert abc == [97, 98, 99];
    assert Repeat(abc, 3) == [97, 98, 99, 97, 98, 99, 97, 98, 99];
  }

  /** `Buffer.from("test string")` and its `length` */
  lemma FromStringCase()
    ensures NewBufferObject(FromData(StringArg(AsciiBytes("test string")))).typ == "Buffer"
    ensures NewBufferObject(FromData(StringArg(AsciiBytes("test string")))).data
         == [116, 101, 115, 116, 32, 115, 116, 114, 105, 110, 103]
    ensures NewBufferObject(FromData(StringArg(AsciiBytes("test string")))).length == 11
  {
  }

  /** `Buffer.from([1, 2, 3])` and its `length` */
  lemma FromIntArrayCase()
    ensures NewBufferObject(FromData(SliceArg("Array", [1, 2, 3]))).typ == "Buffer"
    ensures NewBufferObject(FromData(SliceArg("Array", [1, 2, 3]))).data == [1, 2, 3]
    ensures NewBufferObject(FromData(SliceArg("Array", [1, 2, 3]))).length == 3
  {
    assert ToBytes([1, 2, 3]) == [ToByte(1)] + ToBytes([2, 3]);
    assert ToBytes([2, 3]) == [ToByte(2)] + ToBytes([3]);
    assert ToBytes([3]) == [ToByte(3)] + ToBytes([]);
  }
}

/**
  The script-visible `Buffer` module: `Buffer.alloc(length[, fill])` and
  `Buffer.from(value)`, and the buffer object both of them return.

  The script runtime's own conversions (reading an argument as an integer
  or a string, asking a value for its exported Go type and class name) are
  taken as already applied: an argument arrives as a byte sequence, an
  `int64` or an `Arg`.
 */
module Buffer {
  import opened Wrappers
  import opened Bytes

  /**
    The script object a buffer is exposed as: `type`, `data` and the
    read-only `length` property. (`type` is a Dafny keyword, hence `typ`.)
   */
  datatype BufferObject = BufferObject(typ: string, data: seq<byte>, length: nat)

  /** What every buffer object looks like: tagged "Buffer", `length` the size of `data`. */
  predicate IsBuffer(o: BufferObject)
  {
    o.typ == "Buffer" && o.length == |o.data|
  }

  /** Wraps a byte sequence into a buffer object. */
  function NewBufferObject(b: seq<byte>): (r: BufferObject)
    ensures IsBuffer(r)
    ensures r.data == b && r.length == |b|
  {
    BufferObject("Buffer", b, |b|)
  }

  /** The buffer objects are exactly the wrapped byte sequences. */
  lemma NewBufferObjectInverse(o: BufferObject)
    ensures IsBuffer(o) <==> NewBufferObject(o.data) == o
  {
  }

  // ---------------------------------------------------------------------
  // Buffer.alloc
  // ---------------------------------------------------------------------

  /** `n` zero bytes, what `make([]byte, n)` allocates. */
  function Zeros(n: nat): (r: seq<byte>)
    ensures |r| == n
    ensures forall i :: 0 <= i < n ==> r[i] == 0
  {
    seq(n, i => 0)
  }

  /** `k` copies of `s`, one after the other. */
  function Repeat(s: seq<byte>, k: nat): (r: seq<byte>)
    ensures |r| == k * |s|
  {
    if k == 0 then [] else s + Repeat(s, k - 1)
  }

  /**
    The bytes `Buffer.alloc(n, fill)` produces, stated without a loop: with
    no fill, or an empty one, `n` zero bytes; otherwise as many whole copies
    of `fill` as fit in `n` bytes, followed by the prefix of `fill` that
    fills the rest.
   */
  function AllocData(n: nat, fill: Option<seq<byte>>): seq<byte>
  {
    match fill
    case None => Zeros(n)
    case Some(f) =>
      if |f| == 0 then Zeros(n) else Repeat(f, n / |f|) + f[..n % |f|]
  }

  /** A non-zero multiple of `m` is at least `m` away from zero. */
  lemma MulAwayFromZero(m: int, k: int)
    requires m > 0
    ensures k >= 1 ==> m * k >= m
    ensures k <= -1 ==> m * k <= -m
  {
    if k >= 1 {
      assert m * k == m * (k - 1) + m;
      assert m * (k - 1) >= 0;
    } else if k <= -1 {
      assert m * k == m * (k + 1) - m;
      assert m * (k + 1) <= 0;
    }
  }

  /** Quotient and remainder are unique. */
  lemma DivModUnique(x: int, m: int, q: int, r: int)
    requires m > 0 && 0 <= r < m && x == m * q + r
    ensures x % m == r && x / m == q
  {
    var q', r' := x / m, x % m;
    assert m * (q' - q) == r - r';
    MulAwayFromZero(m, q' - q);
  }

  lemma {:induction false} RepeatAt(s: seq<byte>, k: nat, i: nat)
    requires |s| > 0 && i < k * |s|
    ensures Repeat(s, k)[i] == s[i % |s|]
  {
    if i < |s| {
      DivModUnique(i, |s|, 0, i);
    } else {
      RepeatAt(s, k - 1, i - |s|);
      var q, r := (i - |s|) / |s|, (i - |s|) % |s|;
      assert i == |s| * (q + 1) + r;
      DivModUnique(i, |s|, q + 1, r);
    }
  }

  /** `Buffer.alloc` always yields `n` bytes, whatever the fill. */
  lemma AllocLength(n: nat, fill: Option<seq<byte>>)
    ensures |AllocData(n, fill)| == n
  {
    match fill
    case None =>
    case Some(f) =>
      if |f| > 0 {
        var q, r := n / |f|, n % |f|;
        assert n == q * |f| + r;
      }
  }

  /** A non-empty fill is cycled over the whole buffer. */
  lemma AllocCycledFill(n: nat, f: seq<byte>, i: nat)
    requires |f| > 0 && i < n
    ensures |AllocData(n, Some(f))| == n
    ensures AllocData(n, Some(f))[i] == f[i % |f|]
  {
    AllocLength(n, Some(f));
    var q := n / |f|;
    if i < q * |f| {
      RepeatAt(f, q, i);
    } else {
      DivModUnique(i, |f|, q, i - q * |f|);
    }
  }

  /** With no fill, or an empty one, every byte stays zero. */
  lemma AllocZeroFilled(n: nat, fill: Option<seq<byte>>)
    requires fill == None || fill == Some([])
    ensures AllocData(n, fill) == Zeros(n)
  {
  }

  /** A cycled fill repeats with the fill's length as its period. */
  lemma AllocPeriodic(n: nat, f: seq<byte>, i: nat)
    requires |f| > 0 && i + |f| < n
    ensures AllocData(n, Some(f))[i + |f|] == AllocData(n, Some(f))[i]
  {
    AllocCycledFill(n, f, i);
    AllocCycledFill(n, f, i + |f|);
    var q, r := i / |f|, i % |f|;
    assert i + |f| == |f| * (q + 1) + r;
    DivModUnique(i + |f|, |f|, q + 1, r);
  }

  /**
    `Buffer.alloc(length[, fill])`. `fill` is `None` when the call has
    exactly one argument and otherwise the second argument read as a
    string. Go's `make` panics on a negative length, hence the requires.
   */
  method Alloc(length: int64, fill: Option<seq<byte>>) returns (r: BufferObject)
    requires length >= 0
    ensures IsBuffer(r) && r.length == length as int
    ensures r.data == AllocData(length as int, fill)
  {
    var data := new byte[length as int](_ => 0);
    if fill.None? {
      r := NewBufferObject(data[..]);
      return;
    }
    var f := fill.value;
    if |f| > 0 {
      for i := 0 to data.Length
        invariant forall j :: 0 <= j < i ==> data[j] == f[j % |f|]
      {
        data[i] := f[i % |f|];
      }
    }
    r := NewBufferObject(data[..]);
    AllocLength(length as int, fill);
    forall i | 0 <= i < data.Length
      ensures r.data[i] == AllocData(length as int, fill)[i]
    {
      if |f| > 0 {
        AllocCycledFill(length as int, f, i);
      }
    }
  }

  // ---------------------------------------------------------------------
  // Buffer.from
  // ---------------------------------------------------------------------

  /**
    The argument of `Buffer.from`, classified as the source does: by its
    exported Go type ("string", "[]interface {}" or anything else) and, for
    the slice case, by its class name. A slice's elements are given already
    converted to integers, in key order.
   */
  datatype Arg =
    | StringArg(bytes: seq<byte>)
    | SliceArg(className: string, elems: seq<int64>)
    | OtherArg

  /** Each element converted with `byte(...)`, in order. */
  function ToBytes(xs: seq<int64>): (r: seq<byte>)
    ensures |r| == |xs|
  {
    if xs == [] then [] else [ToByte(xs[0])] + ToBytes(xs[1..])
  }

  lemma {:induction false} ToBytesAt(xs: seq<int64>, i: nat)
    requires i < |xs|
    ensures ToBytes(xs)[i] == ToByte(xs[i])
    ensures ToBytes(xs)[i] as int == xs[i] as int % 0x100
  {
    if i > 0 {
      ToBytesAt(xs[1..], i - 1);
    }
  }

  /** The bytes `Buffer.from(a)` produces. */
  function FromData(a: Arg): seq<byte>
  {
    match a
    case StringArg(b) => b
    case SliceArg(className, xs) => if className == "Array" then ToBytes(xs) else []
    case OtherArg => []
  }

  /** From an array: one byte per enumerable key, its value modulo 256, in key order. */
  lemma FromArray(xs: seq<int64>)
    ensures |FromData(SliceArg("Array", xs))| == |xs|
    ensures forall i :: 0 <= i < |xs| ==>
      FromData(SliceArg("Array", xs))[i] as int == xs[i] as int % 0x100
  {
    forall i | 0 <= i < |xs|
      ensures FromData(SliceArg("Array", xs))[i] as int == xs[i] as int % 0x100
    {
      ToBytesAt(xs, i);
    }
  }

  /** Anything that is neither a string nor an Array gives an empty buffer. */
  lemma FromUnsupported(a: Arg)
    requires a.OtherArg? || (a.SliceArg? && a.className != "Array")
    ensures FromData(a) == []
  {
  }

  /** Every byte, widened to an integer, for use as a script array. */
  function WidenAll(b: seq<byte>): (xs: seq<int64>)
    ensures |xs| == |b|
    ensures forall i :: 0 <= i < |b| ==> xs[i] as int == b[i] as int
  {
    seq(|b|, i requires 0 <= i < |b| => Widen(b[i]))
  }

  /** `Buffer.from` on a script Array of a buffer's byte values reproduces those bytes. */
  lemma FromDataRoundTrip(b: seq<byte>)
    ensures FromData(SliceArg("Array", WidenAll(b))) == b
  {
    var xs := WidenAll(b);
    forall i | 0 <= i < |b|
      ensures ToBytes(xs)[i] == b[i]
    {
      ToBytesAt(xs, i);
    }
  }

  /** A string and the array of its byte values give the same buffer. */
  lemma FromStringAsArray(b: seq<byte>)
    ensures FromData(StringArg(b)) == FromData(SliceArg("Array", WidenAll(b)))
  {
    FromDataRoundTrip(b);
  }

  /**
    `Buffer.from(value)`. A string gives its bytes; an Array gives one byte
    per enumerable key, each value truncated to 8 bits; anything else an empty buffer.
   */
  method From(a: Arg) returns (r: BufferObject)
    ensures IsBuffer(r)
    ensures r.data == FromData(a)
  {
    match a
    case StringArg(b) =>
      r := NewBufferObject(b);
    case SliceArg(className, xs) =>
      if className == "Array" {
        var data := new byte[|xs|](_ => 0);
        for i := 0 to |xs|
          invariant forall j :: 0 <= j < i ==> data[j] == ToByte(xs[j])
        {
          data[i] := ToByte(xs[i]);
        }
        r := NewBufferObject(data[..]);
        forall i | 0 <= i < |xs|
          ensures r.data[i] == ToBytes(xs)[i]
        {
          ToBytesAt(xs, i);
        }
      } else {
        r := NewBufferObject([]);
      }
    case OtherArg =>
      r := NewBufferObject([]);
  }
}

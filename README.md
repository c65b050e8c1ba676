# Buffer module of goja_nodejs, modelled in Dafny

This project models the `Buffer` native module that goja_nodejs exposes to
scripts (`buffer/module.go`). The module has three operations:

- `NewBufferObject` wraps a Go byte slice into a script object with
  `type = "Buffer"`, `data` (the bytes) and a read-only `length`;
- `Buffer.alloc(length[, fill])` allocates `length` zero bytes and, when a
  non-empty fill string is given, overwrites them with the fill cycled;
- `Buffer.from(value)` turns a string into its bytes, a script Array into one
  byte per enumerable key (see ## Left out; each value's integer value
  truncated to 8 bits), and
  any other value with an exported type into an empty buffer.

Files:

- `wrappers.dfy`: `Option`, for the fill argument a caller may leave out.
- `bytes.dfy`: Go's `byte` and `int64` as newtypes; Go's `byte(v)` conversion,
  modelled on the 64-bit two's-complement pattern and proved equal to the
  Euclidean remainder modulo 256; the ASCII case of `[]byte(s)`.
- `buffer.dfy`: the buffer object; `AllocData` and `FromData`, which state
  without loops what `alloc` and `from` produce; the methods `Alloc` and
  `From`, which follow the source's loops over a freshly allocated array and
  are proved to produce exactly those bytes; and the lemmas about them.
- `buffer_test.dfy`: the cases of the module's table-driven test
  (`buffer/module_test.go`) as lemmas.

The script runtime's conversions are taken as already applied at the
boundary. An argument of `alloc` arrives as an `int64` length and an optional
byte string; `None` stands for a call with exactly one argument, the case the
source returns early for. The argument of `from` arrives as an `Arg`, which
mirrors the source's two-level dispatch:

- `StringArg` is a value whose exported Go type is "string";
- `SliceArg(className, elems)` is one whose exported type is "[]interface {}";
  only class name "Array" converts, and `elems` holds the Array's elements,
  already converted to integers, in key order;
- `OtherArg` is any other value that has an exported Go type.

Unsupported inputs: both default branches of `From` (module.go:54-58)
return an empty buffer, and so does the model.

## Model

| member | source | states |
|---|---|---|
| `Bytes.ToByte` | buffer/module.go:51 | Go's `byte(v)` on an `int64`, the low 8 bits of the two's-complement pattern, equals `v` modulo 256 (Euclidean), and is `v` itself for `0 <= v < 256` |
| `Bytes.AsciiBytes` | buffer/module.go:43 | for an ASCII string, `[]byte(s)` has one byte per character, with the character's code |
| `Buffer.NewBufferObject` | buffer/module.go:14-19 | the object is tagged "Buffer", holds exactly the given bytes as `data`, and has `length` equal to their number |
| `Buffer.NewBufferObjectInverse` | buffer/module.go:14-19 | an object is a well-formed buffer object exactly when wrapping its own `data` gives it back |
| `Buffer.Zeros` | buffer/module.go:24 | `make([]byte, n)` gives `n` bytes, all zero |
| `Buffer.AllocLength` | buffer/module.go:23-36 | `alloc(n[, fill])` yields exactly `n` bytes, whatever the fill |
| `Buffer.AllocZeroFilled` | buffer/module.go:25-30 | with only a length, or with an empty fill, every byte is zero |
| `Buffer.AllocCycledFill` | buffer/module.go:29-34 | with a non-empty fill, byte `i` is `fill[i % len(fill)]` for every `i < n` |
| `Buffer.AllocPeriodic` | buffer/module.go:30-33 | with a non-empty fill, the bytes repeat with period `len(fill)` |
| `Buffer.Alloc` | buffer/module.go:22-37 | the zero-initialised array, filled by the index loop, gives a buffer object of `length` bytes equal to the whole copies of the fill followed by the fill's prefix that fits (zeros without a usable fill) |
| `Buffer.ToBytesAt` | buffer/module.go:49-52 | converting a sequence of integers keeps the order: byte `i` is `byte(elems[i])`, that is `elems[i]` modulo 256 |
| `Buffer.FromArray` | buffer/module.go:47-53 | `from` on an Array yields one byte per enumerable key (see ## Left out), byte `i` being the value of key `i`, in `Keys()` order, modulo 256 |
| `Buffer.FromUnsupported` | buffer/module.go:54-58 | a slice whose class is not "Array", and any other non-string value with an exported type, give empty data |
| `Buffer.FromDataRoundTrip` | buffer/module.go:48-53 | `from` on a script Array of a buffer's byte values reproduces those bytes |
| `Buffer.FromStringAsArray` | buffer/module.go:42-53 | a string and the Array of its byte values give the same data |
| `Buffer.From` | buffer/module.go:39-60 | the result is a well-formed buffer object whose data is the string's bytes, the truncated values of the Array's enumerable keys filled in `Keys()` order by the loop, or empty |
| `BufferTest.AllocEmptyCase` | buffer/module_test.go:24-27 | a "Buffer"-tagged object; `alloc(5)` has data `[0,0,0,0,0]` |
| `BufferTest.AllocCharacterCase` | buffer/module_test.go:28-31 | a "Buffer"-tagged object; `alloc(5, 'a')` has data `[97,97,97,97,97]` |
| `BufferTest.AllocStringCase` | buffer/module_test.go:32-35 | a "Buffer"-tagged object; `alloc(10, 'abc')` has data `[97,98,99,97,98,99,97,98,99,97]` |
| `BufferTest.FromStringCase` | buffer/module_test.go:36-47 | a "Buffer"-tagged object; `from("test string")` has the string's eleven byte codes as data and length 11 |
| `BufferTest.FromIntArrayCase` | buffer/module_test.go:40-51 | a "Buffer"-tagged object; `from([1, 2, 3])` has data `[1,2,3]` and length 3 |

## Left out

- The event loop (eventloop/): goroutines, wall-clock timers and Start/Stop races, outside this model of the buffer module.
- `from` on a buffer's own `data`: that value is a Go `[]byte`, whose exported type is not "[]interface {}", so the source takes the default branch and yields an empty buffer; the model's `SliceArg("Array", …)` is a script Array holding the byte values, and `Buffer.FromDataRoundTrip` is about that.
- The script runtime's calls (`NewObject`, `Set`, `DefineDataProperty` and its property flags, `ExportType`, `ClassName`, `Keys`, `Get`, `ToInteger`, `String`): inputs arrive already converted, as `int64`, byte sequences and `Arg`. So the model does not capture that `String()` of an `undefined` second argument gives the fill "undefined", nor how `ToInteger` treats non-integral values.
- The read-only `length`: it is an immutable datatype field, and script writes to it (ignored, or an error in strict mode) are not modelled; neither is sharing of the `data` slice between Go and the script object.
- Module registration (`Require`, `Enable`, `init`): side effects on the module registry.
- The `fmt.Println()` in the slice branch of `From`: output only, with no effect on the result.
- String encoding: strings are taken as their byte sequences; only the ASCII case of Go's UTF-8 conversion is modelled (`Bytes.AsciiBytes`), for the test cases.
- Negative lengths: Go's `make` panics, so `Buffer.Alloc` requires `length >= 0`; an allocation too large for memory is not modelled either.
- `from(null)` and `from(undefined)`: goja gives these values no exported type, so the `.String()` call at module.go:41 panics. `Arg` has no case for them.
- A call with no arguments: the source indexes `Arguments[0]` and panics; the model's signatures always carry the first argument.
- Arrays with holes or other enumerable properties: `elems` are the values of the Array's enumerable keys, in `Keys()` order. For a dense Array with no other enumerable property these are its elements in index order. A hole gives no byte, and each extra enumerable property gives one.
- JSON formatting in the tests: the lemmas compare `data` and `length` directly.

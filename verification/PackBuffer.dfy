/**
 pfunc_pack and pfunc_unpack (lib/pfunc_pack.cpp): arguments copied into one buffer, back to back in the order of the
 format, and out again. An argument is the string of bytes of its object representation.
 */
module PackBuffer {
  import opened Common
  import opened PackFormat
  import opened PackScanner

  type Byte = x: int | 0 <= x < 256

  /** What the variable argument list has to supply: one argument of the right size per token. */
  predicate Matches(abi: Abi, ts: seq<Token>, args: seq<seq<Byte>>) {
    |args| == |ts| && forall k :: 0 <= k < |ts| ==> |args[k]| == SizeOf(abi, ts[k])
  }

  /** The bytes of the arguments, back to back. */
  function Concat(args: seq<seq<Byte>>): seq<Byte> {
    if args == [] then [] else args[0] + Concat(args[1..])
  }

  /** The sizes of the first `k` tokens: where argument `k` lies in the buffer. */
  function Offset(abi: Abi, ts: seq<Token>, k: nat): nat
    requires k <= |ts|
  {
    BufferSize(abi, ts[..k])
  }

  /** Cutting a buffer into the pieces that the tokens ask for. */
  function Slices(abi: Abi, ts: seq<Token>, b: seq<Byte>): seq<seq<Byte>>
    requires BufferSize(abi, ts) <= |b|
  {
    if ts == [] then []
    else [b[..SizeOf(abi, ts[0])]] + Slices(abi, ts[1..], b[SizeOf(abi, ts[0])..])
  }

  // ---------------------------------------------------------------- the two layouts are inverse to each other

  lemma {:induction false} ConcatFillsBuffer(abi: Abi, ts: seq<Token>, args: seq<seq<Byte>>)
    requires Matches(abi, ts, args)
    ensures |Concat(args)| == BufferSize(abi, ts)
  {
    if ts != [] {
      ConcatFillsBuffer(abi, ts[1..], args[1..]);
    }
  }

  lemma {:induction false} SlicesMatch(abi: Abi, ts: seq<Token>, b: seq<Byte>)
    requires BufferSize(abi, ts) <= |b|
    ensures Matches(abi, ts, Slices(abi, ts, b))
  {
    if ts != [] {
      SlicesMatch(abi, ts[1..], b[SizeOf(abi, ts[0])..]);
    }
  }

  lemma {:induction false} SlicesOfConcat(abi: Abi, ts: seq<Token>, args: seq<seq<Byte>>)
    requires Matches(abi, ts, args)
    ensures BufferSize(abi, ts) == |Concat(args)|
    ensures Slices(abi, ts, Concat(args)) == args
  {
    ConcatFillsBuffer(abi, ts, args);
    if ts != [] {
      SlicesOfConcat(abi, ts[1..], args[1..]);
      var n := SizeOf(abi, ts[0]);
      assert Concat(args)[..n] == args[0] && Concat(args)[n..] == Concat(args[1..]);
    }
  }

  lemma {:induction false} ConcatOfSlices(abi: Abi, ts: seq<Token>, b: seq<Byte>)
    requires BufferSize(abi, ts) == |b|
    ensures Concat(Slices(abi, ts, b)) == b
  {
    if ts != [] {
      var n := SizeOf(abi, ts[0]);
      ConcatOfSlices(abi, ts[1..], b[n..]);
      assert Slices(abi, ts, b)[1..] == Slices(abi, ts[1..], b[n..]);
      assert b == b[..n] + b[n..];
    }
  }

  lemma {:induction false} OffsetGrows(abi: Abi, ts: seq<Token>, k: nat)
    requires k < |ts|
    ensures Offset(abi, ts, k + 1) == Offset(abi, ts, k) + SizeOf(abi, ts[k])
    ensures Offset(abi, ts, k + 1) <= BufferSize(abi, ts)
    decreases |ts| - k
  {
    assert ts[..k + 1] == ts[..k] + [ts[k]];
    SizeOfAppended(abi, ts[..k], ts[k]);
    if k + 1 < |ts| {
      OffsetGrows(abi, ts, k + 1);
    } else {
      assert ts[..k + 1] == ts;
    }
  }

  lemma OffsetOfRest(abi: Abi, ts: seq<Token>, k: nat)
    requires 0 < k <= |ts|
    ensures Offset(abi, ts, k) == SizeOf(abi, ts[0]) + Offset(abi, ts[1..], k - 1)
  {
    assert ts[..k][1..] == ts[1..][..k - 1];
  }

  /** Argument `k` lies at `Offset(k)`. */
  lemma {:induction false} SliceAt(abi: Abi, ts: seq<Token>, b: seq<Byte>, k: nat)
    requires k < |ts| && BufferSize(abi, ts) <= |b|
    ensures |Slices(abi, ts, b)| == |ts| && Offset(abi, ts, k) + SizeOf(abi, ts[k]) <= |b|
    ensures Slices(abi, ts, b)[k] == b[Offset(abi, ts, k)..Offset(abi, ts, k) + SizeOf(abi, ts[k])]
  {
    SlicesMatch(abi, ts, b);
    OffsetGrows(abi, ts, k);
    if k > 0 {
      var n := SizeOf(abi, ts[0]);
      SliceAt(abi, ts[1..], b[n..], k - 1);
      OffsetOfRest(abi, ts, k);
      CutBehind(b, n, Offset(abi, ts[1..], k - 1), SizeOf(abi, ts[k]));
    }
  }

  lemma CutBehind(b: seq<Byte>, n: nat, at: nat, size: nat)
    requires n + at + size <= |b|
    ensures b[n..][at..at + size] == b[n + at..n + at + size]
  {
  }

  /**
   What one format packs, any format with the same tokens unpacks: the buffer has the size the scanner computed, every
   argument is read back from the place where it was put, and packing what was read gives the buffer again.
   */
  lemma UnpackUndoesPack(abi: Abi, format: string, other: string, args: seq<seq<Byte>>)
    requires Parse(format).Some? && Parse(other) == Parse(format)
    requires Matches(abi, Parse(format).value, args)
    ensures var ts, us := Parse(format).value, Parse(other).value;
            && |Concat(args)| == BufferSize(abi, ts)
            && Slices(abi, us, Concat(args)) == args
            && Concat(Slices(abi, us, Concat(args))) == Concat(args)
            && forall k {:trigger args[k]} :: 0 <= k < |ts| ==>
                 && Offset(abi, us, k) + |args[k]| <= |Concat(args)|
                 && Concat(args)[Offset(abi, us, k)..Offset(abi, us, k) + |args[k]|] == args[k]
  {
    var ts := Parse(format).value;
    SlicesOfConcat(abi, ts, args);
    forall k {:trigger args[k]} | 0 <= k < |ts|
      ensures Offset(abi, ts, k) + |args[k]| <= |Concat(args)|
      ensures Concat(args)[Offset(abi, ts, k)..Offset(abi, ts, k) + |args[k]|] == args[k]
    {
      SliceAt(abi, ts, Concat(args), k);
    }
  }

  // ---------------------------------------------------------------- the two procedures

  datatype Status = PFUNC_SUCCESS | PFUNC_ERROR

  lemma {:induction false} ConcatAppend(args: seq<seq<Byte>>, last: seq<Byte>)
    ensures Concat(args + [last]) == Concat(args) + last
  {
    if args == [] {
      assert args + [last] == [last];
    } else {
      ConcatAppend(args[1..], last);
      assert (args + [last])[1..] == args[1..] + [last];
    }
  }

  method CopyIn(buffer: array<Byte>, at: nat, param: seq<Byte>)
    requires at + |param| <= buffer.Length
    modifies buffer
    ensures buffer[..at + |param|] == old(buffer[..at]) + param
  {
    forall m | 0 <= m < |param| {
      buffer[at + m] := param[m];
    }
  }

  lemma PrefixMatches(abi: Abi, ts: seq<Token>, args: seq<seq<Byte>>, k: nat)
    requires Matches(abi, ts, args) && k < |ts|
    ensures |Concat(args[..k])| == Offset(abi, ts, k)
    ensures Offset(abi, ts, k) + |args[k]| == Offset(abi, ts, k + 1) <= BufferSize(abi, ts)
    ensures Concat(args[..k + 1]) == Concat(args[..k]) + args[k]
  {
    ConcatFillsBuffer(abi, ts[..k], args[..k]);
    OffsetGrows(abi, ts, k);
    assert args[..k + 1] == args[..k] + [args[k]];
    ConcatAppend(args[..k], args[k]);
  }

  /** Fills a buffer of exactly the computed size with the bytes of the arguments, or reports a malformed format. */
  method Pack(abi: Abi, format: string, args: seq<seq<Byte>>) returns (status: Status, buffer: array?<Byte>)
    requires CString(format)
    requires Parse(format).Some? ==> Matches(abi, Parse(format).value, args)
    ensures status.PFUNC_ERROR? <==> Parse(format).None?
    ensures status.PFUNC_SUCCESS? ==>
              && buffer != null && fresh(buffer)
              && buffer.Length == BufferSize(abi, Parse(format).value) && buffer[..] == Concat(args)
  {
    var size, ts := ExtractTokens(abi, format);
    if size == INVALID_TOKEN {
      return PFUNC_ERROR, null;
    }
    buffer := new Byte[size];
    var at, k := 0, 0;
    while k < |ts|
      invariant 0 <= k <= |ts| && fresh(buffer) && buffer.Length == size
      invariant at == Offset(abi, ts, k) <= size
      invariant buffer[..at] == Concat(args[..k])
    {
      PrefixMatches(abi, ts, args, k);
      CopyIn(buffer, at, args[k]);
      at := at + SizeOf(abi, ts[k]);
      k := k + 1;
    }
    assert ts[..k] == ts && args[..k] == args;
    assert buffer[..] == buffer[..at];
    status := PFUNC_SUCCESS;
  }

  method CopyOut(buffer: array<Byte>, at: nat, param: array<Byte>)
    requires at + param.Length <= buffer.Length && param != buffer
    modifies param
    ensures param[..] == buffer[at..at + param.Length]
  {
    forall m | 0 <= m < param.Length {
      param[m] := buffer[at + m];
    }
  }

  /** The places to unpack to: one object of the right size per token, none overlapping another or the buffer. */
  ghost predicate Places(abi: Abi, ts: seq<Token>, params: seq<array<Byte>>, buffer: array<Byte>) {
    && |params| == |ts|
    && (forall k :: 0 <= k < |ts| ==> params[k].Length == SizeOf(abi, ts[k]) && params[k] != buffer)
    && (forall j, k :: 0 <= j < k < |ts| ==> params[j] != params[k])
  }

  /** Writes slice `k` of the buffer through pointer `k`, or reports a malformed format and writes nothing. */
  method Unpack(abi: Abi, buffer: array<Byte>, format: string, params: seq<array<Byte>>) returns (status: Status)
    requires CString(format)
    requires Parse(format).Some? ==> Places(abi, Parse(format).value, params, buffer)
    requires Parse(format).Some? ==> BufferSize(abi, Parse(format).value) <= buffer.Length
    modifies params
    ensures status.PFUNC_ERROR? <==> Parse(format).None?
    ensures status.PFUNC_ERROR? ==> forall p :: p in params ==> p[..] == old(p[..])
    ensures status.PFUNC_SUCCESS? ==>
              var out := Slices(abi, Parse(format).value, old(buffer[..]));
              |out| == |params| && forall k :: 0 <= k < |params| ==> params[k][..] == out[k]
  {
    var size, ts := ExtractTokens(abi, format);
    if size == INVALID_TOKEN {
      return PFUNC_ERROR;
    }
    ghost var b := buffer[..];
    ghost var out := Slices(abi, ts, b);
    SlicesMatch(abi, ts, b);
    var at, k := 0, 0;
    while k < |ts|
      invariant 0 <= k <= |ts| && at == Offset(abi, ts, k) && buffer[..] == b
      invariant forall m :: 0 <= m < k ==> params[m][..] == out[m]
    {
      OffsetGrows(abi, ts, k);
      SliceAt(abi, ts, b, k);
      CopyOut(buffer, at, params[k]);
      assert params[k][..] == out[k];
      at := at + SizeOf(abi, ts[k]);
      k := k + 1;
    }
    status := PFUNC_SUCCESS;
  }
}

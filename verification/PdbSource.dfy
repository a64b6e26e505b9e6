/** The bounded view that the PDB parser gets of a file: the requested slices, one after the other. */
module PdbSource {
  import opened Basics
  import opened Minidump
  import Utf8

  datatype Slice = Slice(offset: u64, size: nat)

  const MAX_VIEW_BYTES: nat := 256 * 1024 * 1024

  function TotalSize(slices: seq<Slice>, n: nat): nat
    requires n <= |slices|
  {
    if n == 0 then 0 else TotalSize(slices, n - 1) + slices[n - 1].size
  }

  predicate InFile(file: Bytes, s: Slice) {
    s.offset + s.size < U64_BOUND && s.offset + s.size <= |file|
  }

  /** The bytes of the first `n` slices. */
  function Gathered(file: Bytes, slices: seq<Slice>, n: nat): (r: Bytes)
    requires n <= |slices| && forall i | 0 <= i < n :: InFile(file, slices[i])
    ensures |r| == TotalSize(slices, n)
  {
    if n == 0 then []
    else
      assert InFile(file, slices[n - 1]);
      Gathered(file, slices, n - 1) + file[slices[n - 1].offset..slices[n - 1].offset + slices[n - 1].size]
  }

  lemma {:induction false} TotalGrows(slices: seq<Slice>, i: nat, n: nat)
    requires i <= n <= |slices|
    ensures TotalSize(slices, i) <= TotalSize(slices, n)
  {
    if i < n {
      TotalGrows(slices, i, n - 1);
    }
  }

  /** `read_exact` into a part of the buffer. */
  method ReadExact(file: Bytes, s: Slice, buffer: array<Utf8.byte>, at: nat)
    requires InFile(file, s) && at + s.size <= buffer.Length
    modifies buffer
    ensures buffer[..at] == old(buffer[..at])
    ensures buffer[at..at + s.size] == file[s.offset..s.offset + s.size]
  {
    for i := 0 to s.size
      invariant buffer[..at] == old(buffer[..at])
      invariant buffer[at..at + i] == file[s.offset..s.offset + i]
    {
      buffer[at + i] := file[s.offset + i];
      assert buffer[at..at + i + 1] == buffer[at..at + i] + [file[s.offset + i]];
    }
  }

  /** `BoundedPdbSource::view`: a fresh buffer with exactly the slices, or a refusal. */
  method View(file: Bytes, slices: seq<Slice>) returns (r: Result<array<Utf8.byte>>)
    ensures r.Success? <==>
              TotalSize(slices, |slices|) <= MAX_VIEW_BYTES && forall i | 0 <= i < |slices| :: InFile(file, slices[i])
    ensures r.Success? ==> fresh(r.value) && r.value[..] == Gathered(file, slices, |slices|)
  {
    hide InFile;
    var total := TotalSize(slices, |slices|);
    if total > MAX_VIEW_BYTES {
      return Failure;
    }
    var bytes := new Utf8.byte[total](_ => 0);
    var offset := 0;
    for i := 0 to |slices|
      invariant offset == TotalSize(slices, i) <= total
      invariant forall j | 0 <= j < i :: InFile(file, slices[j])
      invariant fresh(bytes)
      invariant bytes[..offset] == Gathered(file, slices, i)
    {
      if !InFile(file, slices[i]) {
        return Failure;
      }
      TotalGrows(slices, i + 1, |slices|);
      ReadExact(file, slices[i], bytes, offset);
      Joined(bytes[..], offset, slices[i].size);
      SliceOf(file, slices, i);
      offset := offset + slices[i].size;
    }
    assert bytes[..] == bytes[..offset];
    r := Success(bytes);
  }

  lemma Joined(b: Bytes, at: nat, size: nat)
    requires at + size <= |b|
    ensures b[..at + size] == b[..at] + b[at..at + size]
  {
  }

  lemma SliceOf(file: Bytes, slices: seq<Slice>, i: nat)
    requires i < |slices| && forall j | 0 <= j <= i :: InFile(file, slices[j])
    ensures slices[i].offset + slices[i].size <= |file|
    ensures Gathered(file, slices, i + 1) ==
            Gathered(file, slices, i) + file[slices[i].offset..slices[i].offset + slices[i].size]
  {
  }

  /** What the parser reads at a position of the view is the byte of the slice that covers it. */
  lemma {:induction false} GatheredAt(file: Bytes, slices: seq<Slice>, n: nat, i: nat, k: nat)
    requires n <= |slices| && (forall j | 0 <= j < n :: InFile(file, slices[j])) && i < n && k < slices[i].size
    ensures TotalSize(slices, i) + k < TotalSize(slices, n)
    ensures Gathered(file, slices, n)[TotalSize(slices, i) + k] == file[slices[i].offset + k]
  {
    if i < n - 1 {
      GatheredAt(file, slices, n - 1, i, k);
    }
  }
}

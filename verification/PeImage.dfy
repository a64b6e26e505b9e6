/** The debug directory of a PE image, read within bounds from the image's bytes. */
module PeImage {
  import opened Basics
  import opened Minidump

  const MAX_DEBUG_ENTRIES: nat := 4096
  const MAX_RECORD_BYTES: nat := 64 * 1024
  const DEBUG_ENTRY_SIZE: nat := 28
  const CODEVIEW_KIND: u32 := 2

  /** `read_pe_range`. */
  function PeRange(file: Bytes, offset: nat, size: nat): (r: Result<Bytes>)
    ensures r.Success? ==> |r.value| == size
  {
    if offset + size < U64_BOUND && offset + size <= |file| then Success(file[offset..offset + size]) else Failure
  }

  datatype Identity = Identity(debugId: string, path: string)

  /** The reading of one CodeView record of `size` bytes: an identity, none, or a refusal. */
  function RecordOf(d: Decoders, file: Bytes, offset: nat, size: nat): Result<Option<Identity>> {
    if size < 24 then Failure
    else
      var record :- PeRange(file, offset, Least(size, MAX_RECORD_BYTES));
      if record[..4] != RSDS then Success(None)
      else
        var name := UpToZero(record[24..]);
        if size > MAX_RECORD_BYTES && |name| == |record[24..]| then Failure
        else Success(Some(Identity(RecordId(record), d.utf8(name))))
  }

  function EntryOf(d: Decoders, file: Bytes, offset: nat): Result<Option<Identity>> {
    var entry :- PeRange(file, offset, DEBUG_ENTRY_SIZE);
    if U32At(entry, 12) != CODEVIEW_KIND then Success(None)
    else RecordOf(d, file, U32At(entry, 24), U32At(entry, 16))
  }

  /** The reading of the `i`-th entry of a directory. */
  function EntryAt(d: Decoders, file: Bytes, offset: nat, i: nat): Result<Option<Identity>> {
    EntryOf(d, file, offset + i * DEBUG_ENTRY_SIZE)
  }

  /** The first `n` entries are read without error and tell no identity. */
  ghost predicate Quiet(d: Decoders, file: Bytes, offset: nat, n: nat) {
    forall i | 0 <= i < n :: EntryAt(d, file, offset, i) == Success(None)
  }

  /** Entry `i` is the first that tells an identity or cannot be read, and this is what it gives. */
  ghost predicate Decides(d: Decoders, file: Bytes, offset: nat, i: nat, r: Result<Option<Identity>>) {
    Quiet(d, file, offset, i) && EntryAt(d, file, offset, i) == r && r != Success(None)
  }

  /** No other entry decides, and nothing else is decided. */
  lemma DecidedOnce(
    d: Decoders, file: Bytes, offset: nat, i: nat, r: Result<Option<Identity>>, j: nat, s: Result<Option<Identity>>)
    requires Decides(d, file, offset, i, r) && Decides(d, file, offset, j, s)
    ensures i == j && r == s
    ensures forall n: nat :: Quiet(d, file, offset, n) <==> n <= i
  {
    hide EntryOf;
    assert !(i < j) && !(j < i);
  }

  /**
   `parse_debug_directory`: too long a directory is refused; otherwise the first entry that tells an identity
   or cannot be read decides, and there is no identity when no entry does.
   */
  method ParseDebugDirectory(d: Decoders, file: Bytes, offset: u64, size: nat) returns (r: Result<Option<Identity>>)
    ensures var count := size / DEBUG_ENTRY_SIZE;
            if count > MAX_DEBUG_ENTRIES then r == Failure
            else if Quiet(d, file, offset, count) then r == Success(None)
            else exists i | 0 <= i < count :: Decides(d, file, offset, i, r)
  {
    hide EntryOf;
    var count := size / DEBUG_ENTRY_SIZE;
    if count > MAX_DEBUG_ENTRIES {
      return Failure;
    }
    for index := 0 to count
      invariant Quiet(d, file, offset, index)
    {
      var found := EntryAt(d, file, offset, index);
      if found.Failure? || found.value.Some? {
        assert Decides(d, file, offset, index, found);
        return found;
      }
    }
    r := Success(None);
  }

  lemma {:induction false} UpToZeroPrefix(a: Bytes, b: Bytes)
    requires a <= b && |UpToZero(a)| < |a|
    ensures UpToZero(b) == UpToZero(a)
  {
    if a[0] != 0 {
      UpToZeroPrefix(a[1..], b[1..]);
    }
  }

  /**
   The dump reader and the image reader agree: over the same CodeView record, an image identity is exactly
   what the dump reports, and the image reader refuses a readable RSDS record only when its path exceeds
   the budget.
   */
  lemma ReadersAgree(d: Decoders, file: Bytes, offset: nat, record: Bytes)
    requires |record| >= 24 && offset + |record| <= |file| < U64_BOUND && file[offset..offset + |record|] == record
    ensures CodeViewOf(d, record).Ok?
    ensures match RecordOf(d, file, offset, |record|)
            case Success(None) => CodeViewOf(d, record).value.None?
            case Success(Some(identity)) => CodeViewOf(d, record).value == Some(CodeView(identity.debugId, identity.path))
            case Failure => record[..4] == RSDS && |record| > MAX_RECORD_BYTES && 0 !in record[24..MAX_RECORD_BYTES]
  {
    hide RsdsId, UpToZero, U32At, U16At;
    if |record| > MAX_RECORD_BYTES {
      var read := file[offset..offset + MAX_RECORD_BYTES];
      assert read == record[..MAX_RECORD_BYTES];
      assert read[..4] == record[..4] && read[12..20] == record[12..20];
      assert read[24..] == record[24..MAX_RECORD_BYTES];
      SameNumbers(read, record);
      if |UpToZero(read[24..])| < |read[24..]| {
        UpToZeroPrefix(read[24..], record[24..]);
      }
    }
  }

  lemma SameNumbers(a: Bytes, b: Bytes)
    requires |a| >= 24 && a <= b
    ensures RecordId(a) == RecordId(b)
  {
    hide RsdsId;
    assert forall i | 0 <= i < |a| :: a[i] == b[i];
    assert a[12..20] == b[12..20];
  }
}

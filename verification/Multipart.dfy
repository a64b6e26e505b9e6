/** Uploading a batch of files, and one file in parts. */
module Multipart {
  import opened Basics

  datatype PartUrl = PartUrl(number: u32, url: string)

  /** The part plan that the server sends. */
  datatype PartPlan = PartPlan(partSize: Option<u64>, parts: seq<PartUrl>)

  datatype CompletedPart = CompletedPart(number: u32, etag: string)

  /** A range of the file that is sent. */
  datatype Piece = Piece(offset: u64, length: u64)

  function DivCeil(a: nat, b: nat): nat
    requires b > 0
  {
    a / b + (if a % b == 0 then 0 else 1)
  }

  /** The plan has as many parts as the file needs. */
  predicate CountFits(size: u64, plan: PartPlan) {
    plan.partSize.Some? && plan.partSize.value > 0 && |plan.parts| == DivCeil(size, plan.partSize.value)
  }

  /** Every range begins where the one before it ends, none is empty, and the last one ends at `end`. */
  ghost predicate Tiles(pieces: seq<Piece>, end: nat)
    decreases |pieces|
  {
    if pieces == [] then end == 0
    else
      var last := pieces[|pieces| - 1];
      last.length > 0 && last.offset + last.length == end && Tiles(pieces[..|pieces| - 1], last.offset)
  }

  /** Where a part begins. */
  function PartOffset(index: nat, partSize: nat): nat {
    index * partSize
  }

  lemma NextOffset(index: nat, partSize: nat)
    ensures PartOffset(0, partSize) == 0
    ensures PartOffset(index + 1, partSize) == PartOffset(index, partSize) + partSize
  {
  }

  lemma {:induction false} OffsetsAscend(i: nat, j: nat, partSize: nat)
    requires i <= j
    ensures PartOffset(i, partSize) <= PartOffset(j, partSize)
    decreases j
  {
    hide PartOffset;
    if i < j {
      OffsetsAscend(i, j - 1, partSize);
      NextOffset(j - 1, partSize);
    }
  }

  lemma CeilBounds(size: nat, partSize: nat, count: nat)
    requires partSize > 0 && size > 0 && count == DivCeil(size, partSize)
    ensures count > 0 && PartOffset(count - 1, partSize) < size <= PartOffset(count, partSize)
  {
    var q, r := size / partSize, size % partSize;
    assert size == PartOffset(q, partSize) + r;
    if r == 0 {
      assert q > 0;
      NextOffset(q - 1, partSize);
    } else {
      NextOffset(q, partSize);
    }
  }

  /** Each part of a fitting plan begins within the file, and only the last one reaches its end. */
  lemma PartWithin(size: nat, partSize: nat, count: nat, index: nat)
    requires partSize > 0 && size > 0 && count == DivCeil(size, partSize) && index < count
    ensures PartOffset(index, partSize) < size
    ensures index + 1 < count ==> PartOffset(index, partSize) + partSize < size
    ensures index + 1 == count ==> size <= PartOffset(index, partSize) + partSize
  {
    CeilBounds(size, partSize, count);
    NextOffset(index, partSize);
    hide PartOffset, DivCeil;
    OffsetsAscend(index, count - 1, partSize);
    if index + 1 < count {
      OffsetsAscend(index + 1, count - 1, partSize);
    }
  }

  /**
   The part loop of `upload_one`. What is sent tiles the file from its start, all of it on success; no
   offset overflows and no length underflows.
   */
  method UploadParts(size: u64, plan: PartPlan, reply: nat -> Result<Option<string>>)
    returns (r: Result<seq<CompletedPart>>, pieces: seq<Piece>)
    requires size > 0
    ensures !CountFits(size, plan) ==> r.Failure? && pieces == []
    ensures exists end: nat :: end <= size && Tiles(pieces, end)
    ensures r.Success? <==> CountFits(size, plan) && forall i | 0 <= i < |plan.parts| ::
              plan.parts[i].number == i + 1 && reply(i).Success? && reply(i).value.Some?
    ensures r.Success? ==> Tiles(pieces, size) && |pieces| == |plan.parts| == |r.value|
    ensures r.Success? ==> forall i | 0 <= i < |plan.parts| ::
              r.value[i] == CompletedPart(plan.parts[i].number, reply(i).value.value)
  {
    hide DivCeil, PartOffset;
    pieces := [];
    assert Tiles(pieces, 0);
    hide Tiles;
    if size > 0 && plan.partSize.Some? && plan.partSize.value > 0 {
      AtLeastOne(size, plan.partSize.value);
      NextOffset(0, plan.partSize.value);
    }
    if plan.partSize.None? {
      return Failure, pieces;
    }
    var partSize := plan.partSize.value;
    if partSize == 0 || |plan.parts| != DivCeil(size, partSize) {
      return Failure, pieces;
    }
    var parts: seq<CompletedPart> := [];
    ghost var end: nat := 0;
    for index := 0 to |plan.parts|
      invariant |parts| == |pieces| == index
      invariant end <= size && Tiles(pieces, end)
      invariant index < |plan.parts| ==> end == PartOffset(index, partSize)
      invariant index == |plan.parts| ==> end == size
      invariant forall i | 0 <= i < index ::
                  plan.parts[i].number == i + 1 && reply(i).Success? && reply(i).value.Some?
                  && parts[i] == CompletedPart(plan.parts[i].number, reply(i).value.value)
    {
      if plan.parts[index].number != index + 1 {
        return Failure, pieces;
      }
      PartWithin(size, partSize, |plan.parts|, index);
      NextOffset(index, partSize);
      var offset: u64 := PartOffset(index, partSize);
      var length: u64 := Least(size - offset, partSize);
      TilesMore(pieces, end, Piece(offset, length));
      pieces := pieces + [Piece(offset, length)];
      end := end + length;
      var etag := reply(index);
      if etag.Failure? || etag.value.None? {
        return Failure, pieces;
      }
      parts := parts + [CompletedPart(plan.parts[index].number, etag.value.value)];
    }
    r := Success(parts);
  }

  lemma AtLeastOne(size: nat, partSize: nat)
    requires partSize > 0 && size > 0
    ensures DivCeil(size, partSize) > 0
  {
    CeilBounds(size, partSize, DivCeil(size, partSize));
  }

  lemma TilesMore(pieces: seq<Piece>, end: nat, next: Piece)
    requires Tiles(pieces, end) && next.offset == end && next.length > 0
    ensures Tiles(pieces + [next], end + next.length)
  {
    assert (pieces + [next])[..|pieces|] == pieces;
  }

  predicate Holds(p: Piece, position: nat) {
    p.offset <= position < p.offset + p.length
  }

  /** Tiling: every byte of the file lies in exactly one range, and no other byte in any. */
  lemma {:induction false} EachByteOnce(pieces: seq<Piece>, end: nat, position: nat)
    requires Tiles(pieces, end)
    ensures position < end <==> exists i :: 0 <= i < |pieces| && Holds(pieces[i], position)
    ensures forall i, j | 0 <= i < j < |pieces| :: !(Holds(pieces[i], position) && Holds(pieces[j], position))
    decreases |pieces|
  {
    if pieces != [] {
      var init, last := pieces[..|pieces| - 1], pieces[|pieces| - 1];
      EachByteOnce(init, last.offset, position);
      assert forall i | 0 <= i < |init| :: init[i] == pieces[i];
      if position < last.offset {
        var i :| 0 <= i < |init| && Holds(init[i], position);
        assert Holds(pieces[i], position);
      } else if position < end {
        assert Holds(pieces[|pieces| - 1], position);
      }
    }
  }

  // ----- a batch -----

  datatype Row = Row(path: string, ok: bool)

  /** The receipt that is written before the first file and after each one. */
  datatype Receipt = Receipt(total: nat, succeeded: nat, failed: nat, files: seq<Row>)

  function Count(rows: seq<Row>, ok: bool): nat {
    if rows == [] then 0 else Count(rows[..|rows| - 1], ok) + (if rows[|rows| - 1].ok == ok then 1 else 0)
  }

  /** A receipt counts its own rows. */
  ghost predicate Honest(r: Receipt) {
    r.succeeded == Count(r.files, true) && r.failed == Count(r.files, false) && |r.files| <= r.total
  }

  /** The receipt after `k` files. */
  ghost predicate ReceiptAfter(r: Receipt, files: seq<string>, outcome: nat -> bool, k: nat) {
    && Honest(r) && r.total == |files| && |r.files| == k <= |files|
    && forall i | 0 <= i < k :: r.files[i] == Row(files[i], outcome(i))
  }

  /**
   The loop of `upload` over the files: a failing file does not end it, a receipt that cannot be written does.
   The receipt is written before the first file is touched and again after every file.
   */
  method Upload(files: seq<string>, outcome: nat -> bool, writes: nat -> bool)
    returns (ok: bool, receipts: seq<Receipt>, touched: nat)
    requires files != []
    ensures ok <==> forall k: nat | k <= |files| :: writes(k)
    ensures |receipts| <= |files| + 1 && forall k: nat | k < |receipts| :: writes(k) && ReceiptAfter(receipts[k], files, outcome, k)
    ensures if ok then |receipts| == |files| + 1 && touched == |files|
            else |receipts| <= |files| && !writes(|receipts|) && touched == |receipts|
  {
    var result := Receipt(|files|, 0, 0, []);
    receipts, touched := [], 0;
    if !writes(0) {
      return false, receipts, touched;
    }
    receipts := [result];
    for i := 0 to |files|
      invariant touched == i && |receipts| == i + 1 && ReceiptAfter(result, files, outcome, i)
      invariant forall k: nat | k <= i :: writes(k) && ReceiptAfter(receipts[k], files, outcome, k)
    {
      var row := Row(files[i], outcome(i));
      if row.ok {
        result := result.(succeeded := result.succeeded + 1);
      } else {
        result := result.(failed := result.failed + 1);
      }
      assert (result.files + [row])[..|result.files|] == result.files;
      result := result.(files := result.files + [row]);
      touched := touched + 1;
      if !writes(touched) {
        return false, receipts, touched;
      }
      receipts := receipts + [result];
    }
    ok := true;
  }

  /** The counters of a receipt add up to its rows. */
  lemma {:induction false} CountsAddUp(rows: seq<Row>)
    ensures Count(rows, true) + Count(rows, false) == |rows|
  {
    if rows != [] {
      CountsAddUp(rows[..|rows| - 1]);
    }
  }
}

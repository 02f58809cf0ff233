/**
  The fetch loop (python/hs2client/ext.pyx) against a server that cuts a result into batches
  as it likes, and the conversion of what was fetched.
*/
module Fetch {
  import opened Options
  import opened Columns
  import opened Rpc

  /** What a response to a fetch carries, for one column. */
  datatype Batch<T> = Batch(column: Column<T>, hasMoreRows: bool)

  /** All batches, an exception from the status check, or a loop that waits for another reply. */
  datatype Fetched<T> = Done(batches: seq<Column<T>>) | Raised(status: Status) | Waiting(sofar: seq<Column<T>>)

  function Collect<T>(replies: seq<Reply<Batch<T>>>, batches: seq<Column<T>>): Fetched<T>
    decreases |replies|
  {
    if replies == [] then Waiting(batches)
    else if !Passes(replies[0]) then Raised(ReplyStatus(replies[0]))
    else
      var b := replies[0].payload;
      if b.hasMoreRows then Collect(replies[1..], batches + [b.column]) else Done(batches + [b.column])
  }

  /** The first `k` replies arrived, and each of them announced more rows. */
  predicate GoesOn<T>(replies: seq<Reply<Batch<T>>>, k: nat)
    requires k <= |replies|
  {
    forall j :: 0 <= j < k ==> Passes(replies[j]) && replies[j].payload.hasMoreRows
  }

  /** The columns of the first `k` replies, which all arrived. */
  function Arrived<T>(replies: seq<Reply<Batch<T>>>, k: nat): seq<Column<T>>
    requires k <= |replies| && forall j :: 0 <= j < k ==> Passes(replies[j])
  {
    if k == 0 then [] else assert Passes(replies[k - 1]); Arrived(replies, k - 1) + [replies[k - 1].payload.column]
  }

  /** Reply `k` is the first that failed. */
  predicate FailsAt<T>(replies: seq<Reply<Batch<T>>>, k: nat) {
    k < |replies| && GoesOn(replies, k) && !Passes(replies[k])
  }

  /** Reply `k` is the first without more rows, and none failed before. */
  predicate FinishesAt<T>(replies: seq<Reply<Batch<T>>>, k: nat) {
    k < |replies| && GoesOn(replies, k) && Passes(replies[k]) && !replies[k].payload.hasMoreRows
  }

  /** The outcome of a loop that has read `k` replies, by the next one. */
  lemma {:induction false} CollectFrom<T>(replies: seq<Reply<Batch<T>>>, k: nat)
    requires k <= |replies| && GoesOn(replies, k)
    ensures Collect(replies, []) == Collect(replies[k..], Arrived(replies, k))
  {
    if k == 0 {
      assert replies[0..] == replies;
    } else {
      CollectFrom(replies, k - 1);
      assert replies[k - 1..][1..] == replies[k..];
    }
  }

  lemma CollectEnds<T>(replies: seq<Reply<Batch<T>>>, k: nat)
    ensures FailsAt(replies, k) ==> Collect(replies, []) == Raised(ReplyStatus(replies[k]))
    ensures FinishesAt(replies, k) ==> Collect(replies, []) == Done(Arrived(replies, k + 1))
  {
    if k < |replies| && GoesOn(replies, k) { CollectFrom(replies, k); }
  }

  /** Every loop fails at some reply, finishes at some reply, or waits for another one. */
  lemma CollectCases<T>(replies: seq<Reply<Batch<T>>>) returns (k: nat)
    ensures k <= |replies| && GoesOn(replies, k)
    ensures if k == |replies| then Collect(replies, []) == Waiting(Arrived(replies, k))
            else FailsAt(replies, k) || FinishesAt(replies, k)
  {
    k := 0;
    while k < |replies| && Passes(replies[k]) && replies[k].payload.hasMoreRows
      invariant k <= |replies| && GoesOn(replies, k)
    {
      k := k + 1;
    }
    CollectFrom(replies, k);
  }

  /**
    The loop of `fetchall_internal`, as far as the replies go: it raises the status of the
    first failed reply, has the batches up to the first that announces no more, or waits.
  */
  method FetchAll<T>(replies: seq<Reply<Batch<T>>>) returns (r: Fetched<T>)
    ensures r == Collect(replies, [])
    ensures r.Raised? <==> exists k: nat :: FailsAt(replies, k)
    ensures forall k: nat :: FailsAt(replies, k) ==> r == Raised(ReplyStatus(replies[k]))
    ensures r.Done? <==> exists k: nat :: FinishesAt(replies, k)
    ensures forall k: nat :: FinishesAt(replies, k) ==> r == Done(Arrived(replies, k + 1))
    ensures r.Waiting? <==> GoesOn(replies, |replies|)
    ensures r.Waiting? ==> r == Waiting(Arrived(replies, |replies|))
  {
    r := FetchLoop(replies);
    ghost var k := CollectCases(replies);
    CollectEnds(replies, k);
    forall j: nat { CollectEnds(replies, j); }
  }

  method FetchLoop<T>(replies: seq<Reply<Batch<T>>>) returns (r: Fetched<T>)
    ensures r == Collect(replies, [])
  {
    var batches: seq<Column<T>> := [];
    var hasMoreRows := true;
    var i := 0;
    while hasMoreRows
      invariant i <= |replies|
      invariant Collect(replies, []) == if hasMoreRows then Collect(replies[i..], batches) else Done(batches)
      decreases hasMoreRows, |replies| - i
    {
      if i == |replies| { return Waiting(batches); }
      var reply := replies[i];
      assert replies[i..][1..] == replies[i + 1..];
      OkIffPasses(reply);
      var status := ReplyStatus(reply);
      if !status.Ok() { return Raised(status); }
      hasMoreRows := reply.payload.hasMoreRows;
      batches := batches + [reply.payload.column];
      i := i + 1;
    }
    return Done(batches);
  }

  /** The replies serve `rows` in order, at most `batchSize` at a time, and say so while rows remain. */
  predicate Serves<T(==)>(replies: seq<Reply<Batch<T>>>, rows: seq<Option<T>>, batchSize: nat)
    decreases |replies|
  {
    if replies == [] then true
    else if !Passes(replies[0]) then Serves(replies[1..], rows, batchSize)
    else
      var b := replies[0].payload;
      && Covered(b.column)
      && |b.column.data| <= batchSize
      && Rows(b.column) <= rows
      && (Rows(b.column) < rows ==> b.hasMoreRows)
      && Serves(replies[1..], rows[|b.column.data|..], batchSize)
  }

  lemma {:induction false} CollectsAllRows<T>(replies: seq<Reply<Batch<T>>>, batches: seq<Column<T>>,
                                              rows: seq<Option<T>>, batchSize: nat)
    requires Serves(replies, rows, batchSize) && AllCovered(batches)
    ensures var r := Collect(replies, batches);
            r.Done? ==> AllCovered(r.batches) && Flatten(r.batches) == Flatten(batches) + rows
    ensures var r := Collect(replies, batches);
            r.Waiting? ==> AllCovered(r.sofar) && Flatten(r.sofar) <= Flatten(batches) + rows
    decreases |replies|
  {
    if replies != [] && Passes(replies[0]) {
      var c := replies[0].payload.column;
      var next, rest := batches + [c], rows[|c.data|..];
      assert next[..|next| - 1] == batches;
      assert Rows(c) + rest == rows;
      assert Flatten(next) + rest == Flatten(batches) + rows;
      CollectsAllRows(replies[1..], next, rest, batchSize);
    }
  }

  lemma FinishedHasAllRows<T>(replies: seq<Reply<Batch<T>>>, batchSize: nat, rows: seq<Option<T>>)
    requires Serves(replies, rows, batchSize) && Collect(replies, []).Done?
    ensures AllCovered(Collect(replies, []).batches) && Flatten(Collect(replies, []).batches) == rows
  {
    NothingBefore(rows);
    CollectsAllRows(replies, [], rows, batchSize);
  }

  lemma NothingBefore<T>(rows: seq<Option<T>>)
    ensures AllCovered<T>([]) && Flatten<T>([]) + rows == rows
  {
  }

  /** Whatever the batch sizes and the cuts, a finished fetch has all rows in order. */
  lemma BatchIndependence<T>(a: seq<Reply<Batch<T>>>, sizeA: nat, b: seq<Reply<Batch<T>>>, sizeB: nat,
                             rows: seq<Option<T>>)
    requires Serves(a, rows, sizeA) && Serves(b, rows, sizeB)
    requires Collect(a, []).Done? && Collect(b, []).Done?
    ensures var x, y := Collect(a, []).batches, Collect(b, []).batches;
            AllCovered(x) && AllCovered(y) && Flatten(x) == rows == Flatten(y)
  {
    FinishedHasAllRows(a, sizeA, rows);
    FinishedHasAllRows(b, sizeB, rows);
  }

  /** Fetching and converting: an array, exactly if the loop ends without an error, and it shows all rows. */
  method FetchIntegers(replies: seq<Reply<Batch<int>>>, ghost rows: seq<Option<int>>, ghost batchSize: nat)
    returns (r: Option<Converted<int, Double>>)
    requires Serves(replies, rows, batchSize)
    ensures r.Some? <==> exists k: nat :: FinishesAt(replies, k)
    ensures r.Some? ==> ShowsIntegers(rows, r.value)
  {
    var fetched := FetchAll(replies);
    if !fetched.Done? { return None; }
    FinishedHasAllRows(replies, batchSize, rows);
    var converted := ConvertInteger(fetched.batches);
    return Some(converted);
  }

  method FetchBooleans(replies: seq<Reply<Batch<bool>>>, ghost rows: seq<Option<bool>>, ghost batchSize: nat)
    returns (r: Option<Converted<bool, PyBool>>)
    requires Serves(replies, rows, batchSize)
    ensures r.Some? <==> exists k: nat :: FinishesAt(replies, k)
    ensures r.Some? ==> ShowsBooleans(rows, r.value)
  {
    var fetched := FetchAll(replies);
    if !fetched.Done? { return None; }
    FinishedHasAllRows(replies, batchSize, rows);
    var converted := ConvertBoolean(fetched.batches);
    return Some(converted);
  }

  /** Fetching the same rows in two ways gives the same arrays. */
  method FetchTwice(a: seq<Reply<Batch<int>>>, ghost sizeA: nat, b: seq<Reply<Batch<int>>>, ghost sizeB: nat,
                    ghost rows: seq<Option<int>>)
    returns (x: Option<Converted<int, Double>>, y: Option<Converted<int, Double>>)
    requires Serves(a, rows, sizeA) && Serves(b, rows, sizeB)
    ensures x.Some? && y.Some? ==> x == y
  {
    x := FetchIntegers(a, rows, sizeA);
    y := FetchIntegers(b, rows, sizeB);
    if x.Some? && y.Some? { IntegersDetermined(rows, x.value, y.value); }
  }
}

/** The difference between two recorded states, sent in chunks, and what a client makes of it. */
module ChangeStreaming {
  import opened Sequences
  import opened Walk
  import opened Wrappers

  /** A server stream; `budget` is how many more messages the connection will carry. */
  class ChangeStream {
    var sent: seq<seq<Change>>
    var budget: nat

    constructor (budget: nat)
      ensures sent == [] && this.budget == budget
    {
      sent := [];
      this.budget := budget;
    }

    method Send(chunk: seq<Change>) returns (ok: bool)
      modifies this
      ensures ok <==> old(budget) > 0
      ensures ok ==> sent == old(sent) + [chunk] && budget == old(budget) - 1
      ensures !ok ==> sent == old(sent) && budget == 0
    {
      ok := budget > 0;
      if ok {
        sent := sent + [chunk];
        budget := budget - 1;
      }
    }
  }

  // ---------------------------------------------------------------------------------------------
  // Differences
  // ---------------------------------------------------------------------------------------------

  /** Every entry is stored under its own path, which starts with the base path. */
  predicate Keyed(base: string, m: FileState) {
    forall k :: k in m ==> m[k].path == k && base <= k
  }

  /** The fields that decide whether an entry counts as changed. */
  datatype Meta = Meta(isDir: bool, size: int, mtimeUnix: int, mtimeUnixNano: int)

  function MetaOf(c: Change): Meta {
    Meta(c.isDir, c.size, c.mtimeUnix, c.mtimeUnixNano)
  }

  predicate Added(oldState: FileState, newState: FileState, k: string) {
    k in newState && (k !in oldState || MetaOf(oldState[k]) != MetaOf(newState[k]))
  }

  /** The paths that differ between two states. */
  function DiffKeys(oldState: FileState, newState: FileState): set<string> {
    (set k | k in newState && Added(oldState, newState, k)) + (oldState.Keys - newState.Keys)
  }

  /** The path was added or removed, or it has become or ceased to be a directory, or its size or times have changed. */
  ghost predicate Differs(oldState: FileState, newState: FileState, k: string) {
    || (k in oldState && k !in newState)
    || (k in newState && k !in oldState)
    || (k in oldState && k in newState && (|| oldState[k].isDir != newState[k].isDir
                                           || oldState[k].size != newState[k].size
                                           || oldState[k].mtimeUnix != newState[k].mtimeUnix
                                           || oldState[k].mtimeUnixNano != newState[k].mtimeUnixNano))
  }

  function Sent(base: string, changeType: ChangeType, c: Change): Change
    requires base <= c.path
  {
    c.(changeType := changeType, path := c.path[|base|..])
  }

  /** The message entry for a path that differs. */
  function DiffChange(base: string, oldState: FileState, newState: FileState, k: string): Change
    requires Keyed(base, oldState) && Keyed(base, newState) && k in DiffKeys(oldState, newState)
  {
    if k in newState then Sent(base, CHANGE, newState[k]) else Sent(base, DELETE, oldState[k])
  }

  /** `order` lists the elements of `s`, each once. */
  ghost predicate Orders(order: seq<string>, s: set<string>) {
    && (forall k :: k in order <==> k in s)
    && Distinct(order)
  }

  lemma {:induction false} OrdersLength(order: seq<string>, s: set<string>)
    requires Orders(order, s)
    ensures |order| == |s|
  {
    if order == [] {
      assert s == {};
    } else {
      var k := order[0];
      assert k in order;
      forall x ensures x in order[1..] <==> x in s - {k} {
        assert order == [k] + order[1..];
      }
      OrdersLength(order[1..], s - {k});
    }
  }

  lemma OrdersExtends(order: seq<string>, s: set<string>, k: string)
    requires Orders(order, s) && k !in s
    ensures Orders(order + [k], s + {k})
  {
  }

  ghost function Changes(base: string, oldState: FileState, newState: FileState, order: seq<string>): (list: seq<Change>)
    requires Keyed(base, oldState) && Keyed(base, newState)
    requires forall k :: k in order ==> k in DiffKeys(oldState, newState)
    ensures |list| == |order|
  {
    if order == [] then []
    else
      Changes(base, oldState, newState, order[..|order|-1])
      + [DiffChange(base, oldState, newState, order[|order|-1])]
  }

  lemma ChangesAppend(base: string, oldState: FileState, newState: FileState, order: seq<string>, k: string)
    requires Keyed(base, oldState) && Keyed(base, newState) && k in DiffKeys(oldState, newState)
    requires forall k :: k in order ==> k in DiffKeys(oldState, newState)
    ensures forall x :: x in order + [k] ==> x in DiffKeys(oldState, newState)
    ensures Changes(base, oldState, newState, order + [k])
         == Changes(base, oldState, newState, order) + [DiffChange(base, oldState, newState, k)]
  {
    assert (order + [k])[..|order|] == order;
  }

  // ---------------------------------------------------------------------------------------------
  // Chunks
  // ---------------------------------------------------------------------------------------------

  const CHUNK_SIZE := 64

  function Concat(chunks: seq<seq<Change>>): seq<Change> {
    if chunks == [] then [] else Concat(chunks[..|chunks|-1]) + chunks[|chunks|-1]
  }

  lemma ConcatAppend(chunks: seq<seq<Change>>, chunk: seq<Change>)
    ensures Concat(chunks + [chunk]) == Concat(chunks) + chunk
  {
    assert (chunks + [chunk])[..|chunks|] == chunks;
  }

  predicate FullChunks(chunks: seq<seq<Change>>) {
    forall i :: 0 <= i < |chunks| ==> |chunks[i]| == CHUNK_SIZE
  }

  /** `chunks` cut `list` into pieces of the chunk size; only the last may be shorter, and none is empty. */
  predicate Chunked(chunks: seq<seq<Change>>, list: seq<Change>) {
    && Concat(chunks) == list
    && (forall i :: 0 <= i < |chunks| ==> 0 < |chunks[i]| <= CHUNK_SIZE)
    && (forall i :: 0 <= i < |chunks| - 1 ==> |chunks[i]| == CHUNK_SIZE)
  }

  lemma {:induction false} FullChunksLength(chunks: seq<seq<Change>>)
    requires FullChunks(chunks)
    ensures |Concat(chunks)| == CHUNK_SIZE * |chunks|
  {
    if chunks != [] {
      FullChunksLength(chunks[..|chunks|-1]);
    }
  }

  /** The number of messages is determined by the number of changes, and so is every message. */
  lemma ChunkCount(chunks: seq<seq<Change>>, list: seq<Change>)
    requires Chunked(chunks, list)
    ensures |chunks| == (|list| + CHUNK_SIZE - 1) / CHUNK_SIZE
  {
    if chunks != [] {
      FullChunksLength(chunks[..|chunks|-1]);
    }
  }

  // ---------------------------------------------------------------------------------------------
  // Streaming
  // ---------------------------------------------------------------------------------------------

  function StateOf(files: Option<FileState>): FileState {
    if files.Some? then files.value else map[]
  }

  /** What has been sent and collected so far are the changes for the paths in `order`. */
  ghost predicate Collected(
    base: string, oldState: FileState, newState: FileState, order: seq<string>, chunks: seq<seq<Change>>, changes: seq<Change>)
    requires Keyed(base, newState) && Keyed(base, oldState)
  {
    && (forall k :: k in order ==> k in DiffKeys(oldState, newState))
    && FullChunks(chunks)
    && Concat(chunks) + changes == Changes(base, oldState, newState, order)
  }

  lemma CollectedAppend(
    base: string, oldState: FileState, newState: FileState, order: seq<string>, chunks: seq<seq<Change>>, changes: seq<Change>,
    k: string)
    requires Keyed(base, newState) && Keyed(base, oldState) && k in DiffKeys(oldState, newState)
    requires Collected(base, oldState, newState, order, chunks, changes)
    ensures Collected(base, oldState, newState, order + [k], chunks,
                      changes + [DiffChange(base, oldState, newState, k)])
  {
    ChangesAppend(base, oldState, newState, order, k);
  }

  lemma CollectedFlush(
    base: string, oldState: FileState, newState: FileState, order: seq<string>, chunks: seq<seq<Change>>, changes: seq<Change>)
    requires Keyed(base, newState) && Keyed(base, oldState)
    requires Collected(base, oldState, newState, order, chunks, changes) && |changes| == CHUNK_SIZE
    ensures Collected(base, oldState, newState, order, chunks + [changes], [])
  {
    ConcatAppend(chunks, changes);
  }

  lemma CollectedRemainder(
    base: string, oldState: FileState, newState: FileState, order: seq<string>, chunks: seq<seq<Change>>, changes: seq<Change>)
    requires Keyed(base, newState) && Keyed(base, oldState)
    requires Collected(base, oldState, newState, order, chunks, changes) && |changes| < CHUNK_SIZE
    ensures Chunked(if |changes| > 0 then chunks + [changes] else chunks, Changes(base, oldState, newState, order))
  {
    if |changes| > 0 {
      ConcatAppend(chunks, changes);
    }
  }

  /** The comparison has dealt with the differing paths in `order`. */
  ghost predicate Sending(
    base: string, oldState: FileState, newState: FileState, order: seq<string>, chunks: seq<seq<Change>>, changes: seq<Change>,
    stream: ChangeStream?, was: seq<seq<Change>>)
    requires Keyed(base, newState) && Keyed(base, oldState)
    reads stream
  {
    && |changes| < CHUNK_SIZE
    && (stream == null ==> changes == [])
    && (stream != null ==> stream.sent == was + chunks && Collected(base, oldState, newState, order, chunks, changes))
  }

  /** Collects one change, unless there is no stream, and sends the collected ones once they fill a chunk. */
  method Emit(
    base: string, ghost oldState: FileState, ghost newState: FileState, ghost order: seq<string>,
    ghost chunks: seq<seq<Change>>, changes: seq<Change>, stream: ChangeStream?, ghost was: seq<seq<Change>>,
    changeType: ChangeType, file: Change)
    returns (ok: bool, rest: seq<Change>, ghost chunks': seq<seq<Change>>)
    requires Keyed(base, newState) && Keyed(base, oldState)
    requires Sending(base, oldState, newState, order, chunks, changes, stream, was)
    requires file.path in DiffKeys(oldState, newState) && base <= file.path
    requires Sent(base, changeType, file) == DiffChange(base, oldState, newState, file.path)
    modifies stream
    ensures ok ==> Sending(base, oldState, newState, order + [file.path], chunks', rest, stream, was)
    ensures !ok ==> stream != null && stream.budget == 0 && DiffKeys(oldState, newState) != {}
  {
    ok, rest, chunks' := true, changes, chunks;
    if stream != null {
      CollectedAppend(base, oldState, newState, order, chunks, changes, file.path);
      rest := rest + [Sent(base, changeType, file)];
    }
    if |rest| >= CHUNK_SIZE && stream != null {
      ok := stream.Send(rest);
      if !ok {
        return;
      }
      CollectedFlush(base, oldState, newState, order + [file.path], chunks, rest);
      chunks' := chunks + [rest];
      rest := [];
    }
  }

  /** Compare new -> old: everything that is new or changed. */
  method CompareNew(base: string, oldState: FileState, newState: FileState, stream: ChangeStream?)
    returns (ok: bool, changeAmount: int, changes: seq<Change>, ghost order: seq<string>, ghost chunks: seq<seq<Change>>)
    requires Keyed(base, newState) && Keyed(base, oldState)
    modifies stream
    ensures ok ==> Orders(order, DiffKeys(oldState, newState) * newState.Keys) && changeAmount == |order|
    ensures ok ==> Sending(base, oldState, newState, order, chunks, changes, stream,
                           if stream != null then old(stream.sent) else [])
    ensures !ok ==> stream != null && stream.budget == 0 && DiffKeys(oldState, newState) != {}
  {
    ok, changeAmount, changes, order, chunks := true, 0, [], [], [];
    ghost var was := if stream != null then stream.sent else [];
    ghost var seen: set<string> := {};
    var todo := newState.Keys;
    while todo != {}
      invariant todo <= newState.Keys && Orders(order, seen) && changeAmount == |order|
      invariant seen <= newState.Keys - todo
      invariant forall k :: k in newState.Keys - todo ==> (k in seen <==> Added(oldState, newState, k))
      invariant Sending(base, oldState, newState, order, chunks, changes, stream, was)
      decreases todo
    {
      var k :| k in todo;
      todo := todo - {k};
      var newFile := newState[k];
      if newFile.path !in oldState || MetaOf(oldState[newFile.path]) != MetaOf(newFile) {
        OrdersExtends(order, seen, k);
        ok, changes, chunks := Emit(base, oldState, newState, order, chunks, changes, stream, was, CHANGE, newFile);
        if !ok {
          return;
        }
        order, seen, changeAmount := order + [k], seen + {k}, changeAmount + 1;
      }
    }
    assert seen == DiffKeys(oldState, newState) * newState.Keys;
  }

  /** Additions and changes come before removals. */
  ghost predicate RemovalsLast(order: seq<string>, newState: FileState) {
    forall i, j :: 0 <= i < j < |order| && order[j] in newState ==> order[i] in newState
  }

  /** Compare old -> new: everything that is gone. */
  method CompareOld(
    base: string, oldState: FileState, newState: FileState, stream: ChangeStream?, amount: int, collected: seq<Change>,
    ghost listed: seq<string>, ghost before: seq<seq<Change>>, ghost was: seq<seq<Change>>)
    returns (ok: bool, changeAmount: int, changes: seq<Change>, ghost order: seq<string>, ghost chunks: seq<seq<Change>>)
    requires Keyed(base, newState) && Keyed(base, oldState)
    requires Orders(listed, DiffKeys(oldState, newState) * newState.Keys) && amount == |listed|
    requires Sending(base, oldState, newState, listed, before, collected, stream, was)
    modifies stream
    ensures ok ==> Orders(order, DiffKeys(oldState, newState)) && RemovalsLast(order, newState) && changeAmount == |order|
    ensures ok ==> Sending(base, oldState, newState, order, chunks, changes, stream, was)
    ensures !ok ==> stream != null && stream.budget == 0 && DiffKeys(oldState, newState) != {}
  {
    ok, changeAmount, changes, order, chunks := true, amount, collected, listed, before;
    ghost var first := DiffKeys(oldState, newState) * newState.Keys;
    ghost var seen: set<string> := {};
    assert first + seen == first;
    assert forall i :: 0 <= i < |listed| ==> listed[i] in first;
    var todo := oldState.Keys;
    while todo != {}
      invariant todo <= oldState.Keys && Orders(order, first + seen) && changeAmount == |order|
      invariant RemovalsLast(order, newState)
      invariant seen == (oldState.Keys - todo) - newState.Keys
      invariant Sending(base, oldState, newState, order, chunks, changes, stream, was)
      decreases todo
    {
      var k :| k in todo;
      todo := todo - {k};
      var oldFile := oldState[k];
      if oldFile.path !in newState {
        OrdersExtends(order, first + seen, k);
        assert (first + seen) + {k} == first + (seen + {k});
        ok, changes, chunks := Emit(base, oldState, newState, order, chunks, changes, stream, was, DELETE, oldFile);
        if !ok {
          return;
        }
        order, seen, changeAmount := order + [k], seen + {k}, changeAmount + 1;
      }
    }
    assert first + seen == DiffKeys(oldState, newState);
  }

  /** Compares two states and streams the differences; without a stream it only counts them. */
  method StreamChanges(base: string, oldFiles: Option<FileState>, newState: FileState, stream: ChangeStream?)
    returns (r: Result<int>, ghost order: seq<string>, ghost chunks: seq<seq<Change>>)
    requires Keyed(base, newState) && Keyed(base, StateOf(oldFiles))
    modifies stream
    ensures r.Ok? ==>
              && Orders(order, DiffKeys(StateOf(oldFiles), newState))
              && r.value == |DiffKeys(StateOf(oldFiles), newState)|
              && RemovalsLast(order, newState)
              && forall k :: k in order <==> Differs(StateOf(oldFiles), newState, k)
    ensures r.Ok? && stream != null ==>
              && stream.sent == old(stream.sent) + chunks
              && Chunked(chunks, Changes(base, StateOf(oldFiles), newState, order))
              && (forall i :: 0 <= i < |chunks| ==> if i < |chunks| - 1 then |chunks[i]| == 64 else 1 <= |chunks[i]| <= 64)
              && TellsOf(Changes(base, StateOf(oldFiles), newState, order), base, StateOf(oldFiles), newState, order)
    ensures r.Err? ==> stream != null && stream.budget == 0 && DiffKeys(StateOf(oldFiles), newState) != {}
  {
    var oldState := StateOf(oldFiles);
    ghost var was := if stream != null then stream.sent else [];
    var ok, changeAmount, changes;
    ok, changeAmount, changes, order, chunks := CompareNew(base, oldState, newState, stream);
    if !ok {
      return Err("send changes"), order, chunks;
    }
    ok, changeAmount, changes, order, chunks :=
      CompareOld(base, oldState, newState, stream, changeAmount, changes, order, chunks, was);
    if !ok {
      return Err("send changes"), order, chunks;
    }
    OrdersLength(order, DiffKeys(oldState, newState));
    ok, chunks := SendRemaining(base, oldState, newState, order, chunks, changes, stream, was);
    if !ok {
      return Err("send changes"), order, chunks;
    }
    TellsOfAll(base, oldState, newState, order);
    OrdersDiffering(order, oldState, newState);
    r := Ok(changeAmount);
  }

  lemma OrdersDiffering(order: seq<string>, oldState: FileState, newState: FileState)
    requires Orders(order, DiffKeys(oldState, newState))
    ensures forall k :: k in order <==> Differs(oldState, newState, k)
  {
    forall k ensures k in order <==> Differs(oldState, newState, k) {
      assert k in order <==> k in DiffKeys(oldState, newState);
    }
  }

  /** The list tells of the paths one by one, relative to the base: a change with the new values of all fields if the path
      is there, a deletion with the old ones otherwise. */
  ghost predicate TellsOf(list: seq<Change>, base: string, oldState: FileState, newState: FileState, order: seq<string>) {
    && |list| == |order|
    && forall i :: 0 <= i < |order| ==> TellsOfOne(list[i], base, oldState, newState, order[i])
  }

  ghost predicate TellsOfOne(c: Change, base: string, oldState: FileState, newState: FileState, k: string) {
    && base + c.path == k
    && if k in newState then c.changeType == CHANGE && SameFields(c, newState[k])
       else c.changeType == DELETE && k in oldState && SameFields(c, oldState[k])
  }

  ghost predicate SameFields(a: Change, b: Change) {
    && a.mtimeUnix == b.mtimeUnix && a.mtimeUnixNano == b.mtimeUnixNano && a.size == b.size && a.mode == b.mode
    && a.isDir == b.isDir
  }

  lemma TellsOfAll(base: string, oldState: FileState, newState: FileState, order: seq<string>)
    requires Keyed(base, oldState) && Keyed(base, newState) && forall k :: k in order ==> k in DiffKeys(oldState, newState)
    ensures TellsOf(Changes(base, oldState, newState, order), base, oldState, newState, order)
  {
    var list := Changes(base, oldState, newState, order);
    forall i | 0 <= i < |order| ensures TellsOfOne(list[i], base, oldState, newState, order[i]) {
      ChangesAt(base, oldState, newState, order, i);
      DiffPath(base, oldState, newState, order[i]);
    }
  }

  /** What has been collected last goes out as a shorter chunk. */
  method SendRemaining(
    base: string, ghost oldState: FileState, ghost newState: FileState, ghost order: seq<string>,
    ghost before: seq<seq<Change>>, changes: seq<Change>, stream: ChangeStream?, ghost was: seq<seq<Change>>)
    returns (ok: bool, ghost chunks: seq<seq<Change>>)
    requires Keyed(base, newState) && Keyed(base, oldState)
    requires Sending(base, oldState, newState, order, before, changes, stream, was)
    modifies stream
    ensures ok && stream != null ==>
              && stream.sent == was + chunks
              && (forall k :: k in order ==> k in DiffKeys(oldState, newState))
              && Chunked(chunks, Changes(base, oldState, newState, order))
    ensures !ok ==> stream != null && stream.budget == 0 && order != []
  {
    ok, chunks := true, before;
    if |changes| > 0 && stream != null {
      ok := stream.Send(changes);
      chunks := chunks + [changes];
    }
    if stream != null {
      CollectedRemainder(base, oldState, newState, order, before, changes);
    }
  }

  // ---------------------------------------------------------------------------------------------
  // A client that applies the changes
  // ---------------------------------------------------------------------------------------------

  /** What a client holds, by path relative to the base. */
  type ClientState = map<string, Meta>

  function ApplyChange(client: ClientState, c: Change): ClientState {
    match c.changeType
    case CHANGE => client[c.path := MetaOf(c)]
    case DELETE => client - {c.path}
  }

  function ApplyAll(client: ClientState, list: seq<Change>): ClientState {
    if list == [] then client else ApplyChange(ApplyAll(client, list[..|list|-1]), list[|list|-1])
  }

  /** The client holds exactly this state, in terms of the fields that count. */
  ghost predicate Mirrors(client: ClientState, base: string, m: FileState) {
    forall r :: MirrorsAt(client, base, m, r)
  }

  predicate MirrorsAt(client: ClientState, base: string, m: FileState, r: string) {
    && (r in client <==> base + r in m)
    && (r in client ==> client[r] == MetaOf(m[base + r]))
  }

  /** A mirror is determined by what it mirrors. */
  lemma MirrorIsUnique(a: ClientState, b: ClientState, base: string, m: FileState)
    requires Mirrors(a, base, m) && Mirrors(b, base, m)
    ensures a == b
  {
    forall r ensures r in a <==> r in b {
      assert MirrorsAt(a, base, m, r) && MirrorsAt(b, base, m, r);
    }
    forall r | r in a ensures a[r] == b[r] {
      assert MirrorsAt(a, base, m, r) && MirrorsAt(b, base, m, r);
    }
  }

  /** The old state, overwritten with the new one on the given paths. */
  ghost function Blend(oldState: FileState, newState: FileState, on: seq<string>): FileState {
    map k | k in oldState.Keys + newState.Keys && (if k in on then k in newState else k in oldState)
      :: if k in on then newState[k] else oldState[k]
  }

  lemma {:induction false} ApplyBlends(client: ClientState, base: string, oldState: FileState, newState: FileState, order: seq<string>)
    requires Keyed(base, oldState) && Keyed(base, newState) && Mirrors(client, base, oldState)
    requires forall k :: k in order ==> k in DiffKeys(oldState, newState)
    ensures Mirrors(ApplyAll(client, Changes(base, oldState, newState, order)), base, Blend(oldState, newState, order))
  {
    if order == [] {
      assert Blend(oldState, newState, order) == oldState;
    } else {
      var before, k := order[..|order|-1], order[|order|-1];
      assert order == before + [k];
      ApplyBlends(client, base, oldState, newState, before);
      BlendStep(oldState, newState, before, k);
      ApplyOneMore(client, base, oldState, newState, before, k);
      ApplyMirrors(ApplyAll(client, Changes(base, oldState, newState, before)), base,
                   Blend(oldState, newState, before), oldState, newState, k);
    }
  }

  lemma ApplyOneMore(
    client: ClientState, base: string, oldState: FileState, newState: FileState, before: seq<string>, k: string)
    requires Keyed(base, oldState) && Keyed(base, newState) && k in DiffKeys(oldState, newState)
    requires forall x :: x in before ==> x in DiffKeys(oldState, newState)
    ensures forall x :: x in before + [k] ==> x in DiffKeys(oldState, newState)
    ensures ApplyAll(client, Changes(base, oldState, newState, before + [k]))
         == ApplyChange(ApplyAll(client, Changes(base, oldState, newState, before)), DiffChange(base, oldState, newState, k))
  {
    ChangesAppend(base, oldState, newState, before, k);
    var list, c := Changes(base, oldState, newState, before), DiffChange(base, oldState, newState, k);
    assert (list + [c])[..|list|] == list;
  }

  /** One more path taken from the new state. */
  ghost function TakeNew(m: FileState, newState: FileState, k: string): FileState {
    if k in newState then m[k := newState[k]] else m - {k}
  }

  lemma BlendStep(oldState: FileState, newState: FileState, before: seq<string>, k: string)
    ensures Blend(oldState, newState, before + [k]) == TakeNew(Blend(oldState, newState, before), newState, k)
  {
    assert forall x :: x in before + [k] <==> x in before || x == k;
  }

  lemma ApplyMirrors(held: ClientState, base: string, m: FileState, oldState: FileState, newState: FileState, k: string)
    requires Keyed(base, oldState) && Keyed(base, newState) && k in DiffKeys(oldState, newState)
    requires Mirrors(held, base, m)
    ensures Mirrors(ApplyChange(held, DiffChange(base, oldState, newState, k)), base, TakeNew(m, newState, k))
  {
    var c := DiffChange(base, oldState, newState, k);
    var held', m' := ApplyChange(held, c), TakeNew(m, newState, k);
    forall r ensures MirrorsAt(held', base, m', r) {
      assert MirrorsAt(held, base, m, r);
      assert (base + r)[|base|..] == r && base + c.path == k;
      assert base + r == k <==> r == c.path;
    }
  }

  /** The change list is a patch: applied to a mirror of the old state, in the order sent, it gives a mirror of the new. */
  lemma DiffIsPatch(client: ClientState, base: string, oldState: FileState, newState: FileState, order: seq<string>)
    requires Keyed(base, oldState) && Keyed(base, newState) && Mirrors(client, base, oldState)
    requires Orders(order, DiffKeys(oldState, newState))
    ensures Mirrors(ApplyAll(client, Changes(base, oldState, newState, order)), base, newState)
  {
    ApplyBlends(client, base, oldState, newState, order);
    var b, held := Blend(oldState, newState, order), ApplyAll(client, Changes(base, oldState, newState, order));
    forall r ensures MirrorsAt(held, base, newState, r) {
      assert MirrorsAt(held, base, b, r);
      var k := base + r;
      assert k in DiffKeys(oldState, newState) <==> k in order;
      assert k in b <==> k in newState;
      assert k in b ==> MetaOf(b[k]) == MetaOf(newState[k]);
    }
  }

  /** Each path occurs at most once in the list. */
  lemma {:induction false} ChangesAt(base: string, oldState: FileState, newState: FileState, order: seq<string>, i: nat)
    requires Keyed(base, oldState) && Keyed(base, newState) && i < |order|
    requires forall k :: k in order ==> k in DiffKeys(oldState, newState)
    ensures Changes(base, oldState, newState, order)[i] == DiffChange(base, oldState, newState, order[i])
  {
    if i < |order| - 1 {
      ChangesAt(base, oldState, newState, order[..|order|-1], i);
    }
  }

  lemma PathsOccurOnce(base: string, oldState: FileState, newState: FileState, order: seq<string>, i: nat, j: nat)
    requires Keyed(base, oldState) && Keyed(base, newState) && Orders(order, DiffKeys(oldState, newState))
    requires i < j < |order|
    ensures var list := Changes(base, oldState, newState, order); list[i].path != list[j].path
  {
    ChangesAt(base, oldState, newState, order, i);
    ChangesAt(base, oldState, newState, order, j);
    DiffPath(base, oldState, newState, order[i]);
    DiffPath(base, oldState, newState, order[j]);
  }

  lemma DiffPath(base: string, oldState: FileState, newState: FileState, k: string)
    requires Keyed(base, oldState) && Keyed(base, newState) && k in DiffKeys(oldState, newState)
    ensures base + DiffChange(base, oldState, newState, k).path == k
  {
  }
}

/** Resolved draws and their hand-off from the pump thread to the render thread. */
module DrawList {
  import opened Words

  datatype Primitive = Point | Line | LineStrip | Triangle | TriangleStrip

  /** One dword of a vertex record: the bits copied from guest memory, or a coordinate computed from them. */
  datatype Component = Bits(word: u32) | Value(x: real)

  /**
   * One resolved draw. Vertex data is counted in dwords, index data in bytes. `strideBytes` is the stride the draw
   * was resolved with and `indexed` tells whether it names an index buffer; the host's own record keeps neither.
   */
  datatype DrawCommand = DrawCommand(
    primitive: Primitive, vertexData: seq<Component>, vertexCount: nat,
    indexData: seq<u8>, indexCount: nat, indexIs32Bit: bool, strideBytes: nat, indexed: bool)

  type Batch = seq<DrawCommand>

  class FrameDrawList {
    var building: Batch
    var ready: Batch

    constructor ()
      ensures building == [] && ready == []
    {
      building, ready := [], [];
    }

    method AddDrawCommand(cmd: DrawCommand)
      modifies this
      ensures building == old(building) + [cmd] && ready == old(ready)
    {
      building := building + [cmd];
    }

    /** An empty frame must not wipe out a batch the render thread has not taken yet. */
    method SwapReady()
      modifies this
      ensures ready == if old(building) != [] then old(building) else old(ready)
      ensures building == []
    {
      if building != [] {
        ready := building;
      }
      building := [];
    }

    method TakeReady() returns (result: Batch)
      modifies this
      ensures result == old(ready) && ready == [] && building == old(building)
    {
      result := ready;
      ready := [];
    }
  }

  // ---------------------------------------------------------------- histories

  /** One call, whichever thread makes it; each runs under the list's lock. */
  datatype Call = Add(cmd: DrawCommand) | Swap | Take

  /** How a batch left the ready slot. */
  datatype Retired = Taken(batch: Batch) | Dropped(batch: Batch)

  /** The two lists, everything ever added, every batch ever made ready, and the batches that have left. */
  datatype History = History(
    building: Batch, ready: Batch, added: Batch, batches: seq<Batch>, retired: seq<Retired>)

  const NO_HISTORY := History([], [], [], [], [])

  function Step(h: History, c: Call): History {
    match c
    case Add(cmd) => h.(building := h.building + [cmd], added := h.added + [cmd])
    case Swap =>
      if h.building == [] then h
      else History([], h.building, h.added, h.batches + [h.building],
                   if h.ready == [] then h.retired else h.retired + [Dropped(h.ready)])
    case Take =>
      if h.ready == [] then h else h.(ready := [], retired := h.retired + [Taken(h.ready)])
  }

  function After(calls: seq<Call>): History {
    if calls == [] then NO_HISTORY else Step(After(calls[..|calls| - 1]), calls[|calls| - 1])
  }

  function Flatten(batches: seq<Batch>): Batch {
    if batches == [] then [] else Flatten(batches[..|batches| - 1]) + batches[|batches| - 1]
  }

  function BatchesOf(retired: seq<Retired>): seq<Batch> {
    if retired == [] then [] else BatchesOf(retired[..|retired| - 1]) + [retired[|retired| - 1].batch]
  }

  ghost predicate Conserved(h: History) {
    && h.added == Flatten(h.batches) + h.building
    && h.batches == BatchesOf(h.retired) + if h.ready == [] then [] else [h.ready]
  }

  lemma FlattenSnoc(batches: seq<Batch>, b: Batch)
    ensures Flatten(batches + [b]) == Flatten(batches) + b
  {
    assert (batches + [b])[..|batches|] == batches;
  }

  lemma RetiredSnoc(retired: seq<Retired>, r: Retired)
    ensures BatchesOf(retired + [r]) == BatchesOf(retired) + [r.batch]
  {
    assert (retired + [r])[..|retired|] == retired;
  }

  lemma SwapConserves(h: History)
    requires Conserved(h) && h.building != []
    ensures Conserved(Step(h, Swap))
  {
    var h' := Step(h, Swap);
    FlattenSnoc(h.batches, h.building);
    assert h'.added == Flatten(h'.batches) + [];
    if h.ready == [] {
      assert h.batches == BatchesOf(h.retired);
    } else {
      RetiredSnoc(h.retired, Dropped(h.ready));
    }
  }

  lemma TakeConserves(h: History)
    requires Conserved(h) && h.ready != []
    ensures Conserved(Step(h, Take))
  {
    var h' := Step(h, Take);
    RetiredSnoc(h.retired, Taken(h.ready));
    assert h'.batches == BatchesOf(h'.retired) + [];
  }

  lemma StepConserves(h: History, c: Call)
    requires Conserved(h)
    ensures Conserved(Step(h, c))
  {
    if c.Swap? && h.building != [] {
      SwapConserves(h);
    } else if c.Take? && h.ready != [] {
      TakeConserves(h);
    } else if c.Add? {
      assert Flatten(h.batches) + h.building + [c.cmd] == Flatten(h.batches) + (h.building + [c.cmd]);
    }
  }

  lemma {:induction false} HistoryConserved(calls: seq<Call>)
    ensures Conserved(After(calls))
    decreases |calls|
  {
    if calls == [] {
    } else {
      HistoryConserved(calls[..|calls| - 1]);
      StepConserves(After(calls[..|calls| - 1]), calls[|calls| - 1]);
    }
  }

  /** Whatever the interleaving: commands added are the retired batches in order, then ready, then building. */
  lemma {:induction false} HandOffConserves(calls: seq<Call>)
    ensures var h := After(calls); h.added == Flatten(BatchesOf(h.retired)) + h.ready + h.building
  {
    hide After;
    hide Flatten;
    hide BatchesOf;
    var h := After(calls);
    HistoryConserved(calls);
    if h.ready == [] {
      assert h.batches == BatchesOf(h.retired);
    } else {
      FlattenSnoc(BatchesOf(h.retired), h.ready);
    }
  }

  /** A batch is dropped only by a newer non-empty one, taken only whole, and an empty swap changes nothing. */
  lemma {:induction false} HandOffStep(calls: seq<Call>, c: Call)
    ensures var h, h' := After(calls), After(calls + [c]);
      && h' == Step(h, c)
      && (c == Swap && h.building == [] ==> h' == h)
      && (h'.retired == h.retired
          || (c == Swap && h.ready != [] && h.building != [] && h'.ready == h.building
              && h'.retired == h.retired + [Dropped(h.ready)])
          || (c == Take && h.ready != [] && h.batches != [] && h.ready == h.batches[|h.batches| - 1]
              && h'.retired == h.retired + [Taken(h.ready)]))
  {
    assert (calls + [c])[..|calls|] == calls;
    HistoryConserved(calls);
  }

  /** The object under any sequence of calls is the two lists of its history, and `TakeReady` hands over `ready`. */
  method Replay(list: FrameDrawList, calls: seq<Call>) returns (taken: seq<Batch>)
    requires list.building == [] && list.ready == []
    modifies list
    ensures list.building == After(calls).building && list.ready == After(calls).ready
    ensures taken == TakenBatches(After(calls).retired)
  {
    taken := [];
    for i := 0 to |calls|
      invariant list.building == After(calls[..i]).building && list.ready == After(calls[..i]).ready
      invariant taken == TakenBatches(After(calls[..i]).retired)
    {
      assert calls[..i + 1][..i] == calls[..i];
      match calls[i] {
        case Add(cmd) => list.AddDrawCommand(cmd);
        case Swap => list.SwapReady();
        case Take =>
          var batch := list.TakeReady();
          if batch != [] {
            taken := taken + [batch];
          }
      }
    }
    assert calls[..|calls|] == calls;
  }

  function TakenBatches(retired: seq<Retired>): seq<Batch> {
    if retired == [] then []
    else
      var r := retired[|retired| - 1];
      TakenBatches(retired[..|retired| - 1]) + if r.Taken? then [r.batch] else []
  }
}

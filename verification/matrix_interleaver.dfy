/**
 The matrix interleaver of blocks_hier.hpp: items written into the rows of a
 matrix and read back by columns, wired from a deinterleaver and an interleaver.
 */
module MatrixInterleaver {
  import opened Arithmetic
  import opened Streams
  import opened Wrappers

  const NO_SIZE := "Matrix Interleaver item size must be positive"
  const NO_MATRIX := "Matrix Interleaver rows and columns must be at least 1"

  /** What the constructor wires: a copy, or the pair of blocks and their ports. */
  datatype Wiring = Copy | Through(dealBy: nat, ports: nat, collectBy: nat)

  method Wire(itemSize: nat, rows: int, cols: int, deint: bool) returns (r: Result<Wiring>)
    ensures r.Err? <==> itemSize == 0 || rows < 1 || cols < 1
    ensures r.Ok? ==> r.value == Wired(rows, cols, deint)
  {
    if itemSize == 0 { return Err(NO_SIZE); }
    if rows < 1 || cols < 1 { return Err(NO_MATRIX); }
    if rows == 1 || cols == 1 { return Ok(Copy); }
    return Ok(Through(if deint then 1 else cols, rows, if deint then cols else 1));
  }

  function Wired(rows: nat, cols: nat, deint: bool): (w: Wiring)
    requires 0 < rows && 0 < cols
    ensures w.Through? ==> 0 < w.dealBy && 0 < w.ports && 0 < w.collectBy
  {
    if rows == 1 || cols == 1 then Copy else General(rows, cols, deint)
  }

  /** The pair of blocks, for any matrix. */
  function General(rows: nat, cols: nat, deint: bool): (w: Wiring)
    requires 0 < rows && 0 < cols
    ensures w.Through? && 0 < w.dealBy && 0 < w.ports && 0 < w.collectBy
  {
    if deint then Through(1, rows, cols) else Through(cols, rows, 1)
  }

  function Output<T>(w: Wiring, s: seq<T>): seq<T>
    requires w.Through? ==> 0 < w.dealBy && 0 < w.ports && 0 < w.collectBy
  {
    match w
    case Copy => s
    case Through(dealBy, ports, collectBy) => Interleave(Deinterleave(s, dealBy, ports), collectBy)
  }

  function Interleaved<T>(s: seq<T>, rows: nat, cols: nat): seq<T>
    requires 0 < rows && 0 < cols
  {
    Output(General(rows, cols, false), s)
  }

  function Restored<T>(s: seq<T>, rows: nat, cols: nat): seq<T>
    requires 0 < rows && 0 < cols
  {
    Output(General(rows, cols, true), s)
  }

  // ---- whole frames --------------------------------------------------------------------

  /** So many whole matrices of items. */
  ghost predicate Frames<T>(s: seq<T>, rows: nat, cols: nat, frames: nat) {
    |s| == frames * (rows * cols)
  }

  lemma FramesDivide(frames: nat, rows: nat, cols: nat)
    requires 0 < rows && 0 < cols
    ensures frames * (rows * cols) == frames * rows * cols == frames * cols * rows
    ensures frames * (rows * cols) % cols == 0
    ensures frames * (rows * cols) % rows == 0
  {
    Regrouped(frames, rows, cols);
    ModUnique(frames * rows * cols, cols, frames * rows, 0);
    ModUnique(frames * cols * rows, rows, frames * cols, 0);
  }

  lemma Regrouped(frames: nat, rows: nat, cols: nat)
    ensures frames * (rows * cols) == frames * rows * cols == frames * cols * rows
  {
  }

  lemma WholeShare(rounds: nat, n: nat, port: nat)
    requires port < n
    ensures Share(rounds * n, n, port) == rounds
  {
    ModUnique(rounds * n + (n - 1 - port), n, rounds, n - 1 - port);
  }

  /** A whole number of rounds leaves every port the same length. */
  lemma PortLengths<T>(s: seq<T>, size: nat, n: nat, rounds: nat, blocks: nat)
    requires 0 < size && 0 < n && blocks == rounds * n && |s| == blocks * size
    ensures EqualPorts(Deinterleave(s, size, n), rounds * size)
  {
    var bs := Blocks(s, size);
    BlocksCount(s, size);
    ModUnique(|s|, size, blocks, 0);
    var dealt := Deal(bs, n);
    forall i | 0 <= i < n
      ensures |Flatten(dealt[i])| == rounds * size
    {
      DealtLength(bs, n, i);
      WholeShare(rounds, n, i);
      DealtSized(bs, n, size, i);
      FlattenLength(dealt[i], size);
    }
  }

  /** Deinterleaving undoes interleaving, on whole frames. */
  lemma RestoredUndoes<T>(s: seq<T>, rows: nat, cols: nat, frames: nat)
    requires 0 < rows && 0 < cols && Frames(s, rows, cols, frames)
    ensures Restored(Interleaved(s, rows, cols), rows, cols) == s
  {
    FramesDivide(frames, rows, cols);
    var ports := Deinterleave(s, cols, rows);
    PortLengths(s, cols, rows, frames, frames * rows);
    ModUnique(frames * cols, 1, frames * cols, 0);
    DeinterleaveUndoes(ports, 1, frames * cols);
    InterleaveUndoes(s, cols, rows);
  }

  /** And interleaving undoes deinterleaving. */
  lemma InterleavedUndoes<T>(s: seq<T>, rows: nat, cols: nat, frames: nat)
    requires 0 < rows && 0 < cols && Frames(s, rows, cols, frames)
    ensures Interleaved(Restored(s, rows, cols), rows, cols) == s
  {
    FramesDivide(frames, rows, cols);
    var ports := Deinterleave(s, 1, rows);
    PortLengths(s, 1, rows, frames * cols, frames * cols * rows);
    ModUnique(frames * cols, cols, frames, 0);
    DeinterleaveUndoes(ports, cols, frames * cols);
    ModUnique(|s|, 1, |s|, 0);
    InterleaveUndoes(s, 1, rows);
  }

  // ---- the transposition -------------------------------------------------------------------

  /** Row r, column c of matrix f, counted by rows and counted by columns. */
  function ByRows(f: nat, r: nat, c: nat, rows: nat, cols: nat): nat {
    (f * rows + r) * cols + c
  }

  function ByColumns(f: nat, r: nat, c: nat, rows: nat, cols: nat): nat {
    (f * cols + c) * rows + r
  }

  lemma Within(f: nat, r: nat, frames: nat, rows: nat)
    requires f < frames && r < rows
    ensures f * rows + r < frames * rows
  {
    assert (frames - f - 1) * rows >= 0 by { ScaleDown(frames - f - 1, rows); }
    assert (frames - f - 1) * rows == frames * rows - f * rows - rows;
  }

  /** Dealt by whole rows: port r carries row r of each matrix. */
  lemma DealtByRows<T>(s: seq<T>, rows: nat, cols: nat, frames: nat, f: nat, r: nat, c: nat, from: nat, k: nat)
    requires 0 < rows && 0 < cols && Frames(s, rows, cols, frames) && f < frames && r < rows && c < cols
    requires from == ByRows(f, r, c, rows, cols) && k == f * cols + c
    ensures var ports := Deinterleave(s, cols, rows);
      && EqualPorts(ports, frames * cols)
      && from < |s| && k < frames * cols && ports[r][k] == s[from]
  {
    FramesDivide(frames, rows, cols);
    PortLengths(s, cols, rows, frames, frames * rows);
    BlocksCount(s, cols);
    ModUnique(|s|, cols, frames * rows, 0);
    Within(f, r, frames, rows);
    Within(f, c, frames, cols);
    DeinterleavedAt(s, cols, rows, r, f, c, f * rows + r, from);
  }

  /** Collected one item from each row in turn. */
  lemma CollectedByColumns<T>(ports: seq<seq<T>>, length: nat, r: nat, k: nat, to: nat)
    requires EqualPorts(ports, length) && r < |ports| && k < length && to == k * |ports| + r
    ensures |Interleave(ports, 1)| == |ports| * length
    ensures to < |Interleave(ports, 1)| && Interleave(ports, 1)[to] == ports[r][k]
  {
    Within(k, r, length, |ports|);
    assert |ports| * length == length * |ports|;
    InterleavedAt(ports, 1, length, r, k, 0, to, to);
  }

  /** Every item goes from its place by rows to its place by columns. */
  lemma Transposes<T>(s: seq<T>, rows: nat, cols: nat, frames: nat, f: nat, r: nat, c: nat)
    requires 0 < rows && 0 < cols && Frames(s, rows, cols, frames) && f < frames && r < rows && c < cols
    ensures |Interleaved(s, rows, cols)| == |s|
    ensures ByRows(f, r, c, rows, cols) < |s| && ByColumns(f, r, c, rows, cols) < |s|
    ensures Interleaved(s, rows, cols)[ByColumns(f, r, c, rows, cols)] == s[ByRows(f, r, c, rows, cols)]
  {
    DealtByRows(s, rows, cols, frames, f, r, c, ByRows(f, r, c, rows, cols), f * cols + c);
    CollectedByColumns(Deinterleave(s, cols, rows), frames * cols, r, f * cols + c, ByColumns(f, r, c, rows, cols));
    FramesDivide(frames, rows, cols);
    assert rows * (frames * cols) == frames * cols * rows;
  }

  /** A single row or column leaves every item where it is, as the copy does. */
  lemma UnitaryIsCopy<T>(s: seq<T>, rows: nat, cols: nat, frames: nat)
    requires 0 < rows && 0 < cols && (rows == 1 || cols == 1) && Frames(s, rows, cols, frames)
    ensures Interleaved(s, rows, cols) == s && Restored(s, rows, cols) == s
  {
    var out := Interleaved(s, rows, cols);
    if frames == 0 {
      assert s == [];
    } else {
      Transposes(s, rows, cols, frames, 0, 0, 0);
      forall j | 0 <= j < |s|
        ensures out[j] == s[j]
      {
        UnitaryPlace(s, rows, cols, frames, j);
      }
      assert out == s;
    }
    RestoredUndoes(s, rows, cols, frames);
  }

  lemma UnitaryPlace<T>(s: seq<T>, rows: nat, cols: nat, frames: nat, j: nat)
    requires 0 < rows && 0 < cols && (rows == 1 || cols == 1) && Frames(s, rows, cols, frames)
    requires j < |s|
    ensures j < |Interleaved(s, rows, cols)| && Interleaved(s, rows, cols)[j] == s[j]
  {
    var length := if rows == 1 then cols else rows;
    assert |s| == frames * length;
    WholePart(j, length);
    var f, t := j / length, j % length;
    RoundBelow(f, t, frames, length);
    if rows == 1 { Transposes(s, rows, cols, frames, f, 0, t); } else { Transposes(s, rows, cols, frames, f, t, 0); }
  }

  lemma RoundBelow(f: nat, t: nat, frames: nat, length: nat)
    requires 0 < length && f * length + t < frames * length
    ensures f < frames
  {
    ScaleDown(if frames <= f then f - frames else 0, length);
    assert (f - frames) * length == f * length - frames * length;
  }

  /**
   The block as built: whichever wiring the constructor chose, on whole frames the
   two directions are the transposition and its inverse.
   */
  lemma WiringsInverse<T>(s: seq<T>, rows: nat, cols: nat, frames: nat, deint: bool)
    requires 0 < rows && 0 < cols && Frames(s, rows, cols, frames)
    ensures Output(Wired(rows, cols, deint), s) == Output(General(rows, cols, deint), s)
    ensures Output(Wired(rows, cols, !deint), Output(Wired(rows, cols, deint), s)) == s
  {
    if rows == 1 || cols == 1 {
      UnitaryIsCopy(s, rows, cols, frames);
    } else {
      RestoredUndoes(s, rows, cols, frames);
      InterleavedUndoes(s, rows, cols, frames);
    }
  }
}

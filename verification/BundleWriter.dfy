/** The writer's side of the bundle format, the partner the readers are
    checked against: records laid out back to back (a 4-byte little-endian
    length, then the tile's bytes), and an index of fixed-width entries, each
    holding the little-endian offset of its record. The server never writes
    bundles; this layout only states what a well-formed bundle is. */
module BundleWriter {
  import opened GoInt
  import opened Bytes

  /** The first n pieces, back to back. */
  function Join<T>(pieces: seq<seq<T>>, n: nat): seq<T>
    requires n <= |pieces|
    decreases n
  {
    if n == 0 then [] else Join(pieces, n - 1) + pieces[n - 1]
  }

  /** Every piece has length `stride`. */
  predicate Uniform<T>(pieces: seq<seq<T>>, stride: nat) {
    forall k :: 0 <= k < |pieces| ==> |pieces[k]| == stride
  }

  /** Joining more pieces only appends. */
  lemma {:induction false} JoinPrefix<T>(pieces: seq<seq<T>>, k: nat, n: nat)
    requires k <= n <= |pieces|
    ensures |Join(pieces, k)| <= |Join(pieces, n)|
    ensures Join(pieces, n)[..|Join(pieces, k)|] == Join(pieces, k)
    decreases n
  {
    if k < n {
      JoinPrefix(pieces, k, n - 1);
      PrefixOfPrefix(Join(pieces, n), Join(pieces, n - 1), |Join(pieces, k)|);
    }
  }

  /** Piece k sits right after the k pieces before it. */
  lemma JoinPiece<T>(pieces: seq<seq<T>>, k: nat)
    requires k < |pieces|
    ensures |Join(pieces, k)| + |pieces[k]| <= |Join(pieces, |pieces|)|
    ensures Join(pieces, |pieces|)[|Join(pieces, k)|..|Join(pieces, k)| + |pieces[k]|] == pieces[k]
  {
    JoinPrefix(pieces, k + 1, |pieces|);
    PieceAfter(Join(pieces, |pieces|), Join(pieces, k), pieces[k]);
  }

  /** Pieces of one size `stride` put piece k at `stride * k`. */
  lemma {:induction false} JoinUniform<T>(pieces: seq<seq<T>>, stride: nat, n: nat)
    requires n <= |pieces|
    requires Uniform(pieces, stride)
    ensures |Join(pieces, n)| == stride * n
    decreases n
  {
    if n > 0 {
      JoinUniform(pieces, stride, n - 1);
      assert stride * n == stride * (n - 1) + stride;
    }
  }

  /** Piece k, made of `a` then `b`, puts `a` at its offset `o` and `b`
      right after. */
  lemma PieceAt<T>(pieces: seq<seq<T>>, count: nat, k: nat, o: nat, a: seq<T>, b: seq<T>, n: nat)
    requires count == |pieces| && k < count && pieces[k] == a + b && o == |Join(pieces, k)| && |a| == n
    ensures o + n + |b| <= |Join(pieces, count)|
    ensures Join(pieces, count)[o..o + n] == a
    ensures Join(pieces, count)[o + n..o + n + |b|] == b
  {
    JoinPiece(pieces, k);
    PieceSplit(Join(pieces, count), o, a, b);
  }

  /** `PieceAt` with `front` before the pieces. */
  lemma FrontPieceAt<T>(front: seq<T>, pieces: seq<seq<T>>, count: nat, k: nat, o: nat, a: seq<T>, b: seq<T>, n: nat)
    requires count == |pieces| && k < count && pieces[k] == a + b && |a| == n
    requires o == |front| + |Join(pieces, k)|
    ensures o + n + |b| <= |front + Join(pieces, count)|
    ensures (front + Join(pieces, count))[o..o + n] == a
    ensures (front + Join(pieces, count))[o + n..o + n + |b|] == b
  {
    var m := |Join(pieces, k)|;
    PieceAt(pieces, count, k, m, a, b, n);
    ShiftedPieces(front, Join(pieces, count), front + Join(pieces, count), m, o, a, b, n);
  }

  /** `PieceAt` with `front` before the pieces and `back` after them. */
  lemma FramedPieceAt<T>(front: seq<T>, pieces: seq<seq<T>>, back: seq<T>, count: nat, k: nat, at: nat,
                         a: seq<T>, b: seq<T>)
    requires count == |pieces| && k < count && pieces[k] == a + b
    requires at == |front| + |Join(pieces, k)|
    ensures at + |a| <= |front + Join(pieces, count) + back|
    ensures (front + Join(pieces, count) + back)[at..at + |a|] == a
  {
    var m := |Join(pieces, k)|;
    PieceAt(pieces, count, k, m, a, b, |a|);
    MiddleSlice(front, Join(pieces, count), back, m, m + |a|);
  }

  /** A sequence that starts with `a + b` holds `b` right after `a`. */
  lemma PieceAfter<T>(all: seq<T>, a: seq<T>, b: seq<T>)
    requires |a| + |b| <= |all| && all[..|a| + |b|] == a + b
    ensures all[|a|..|a| + |b|] == b
  {
    var m := |a|;
    forall x | 0 <= x < |b|
      ensures all[m..m + |b|][x] == b[x]
    {
      assert all[m + x] == all[..m + |b|][m + x];
    }
  }

  /** A prefix of a known prefix. */
  lemma PrefixOfPrefix<T>(all: seq<T>, pre: seq<T>, j: nat)
    requires |pre| <= |all| && all[..|pre|] == pre && j <= |pre|
    ensures all[..j] == pre[..j]
  {
    forall x | 0 <= x < j
      ensures all[..j][x] == pre[..j][x]
    {
      assert all[x] == all[..|pre|][x];
    }
  }

  /** A piece `a + b` found at `o` holds `a` at `o` and `b` right after. */
  lemma PieceSplit<T>(all: seq<T>, o: nat, a: seq<T>, b: seq<T>)
    requires o + |a| + |b| <= |all| && all[o..o + |a| + |b|] == a + b
    ensures all[o..o + |a|] == a && all[o + |a|..o + |a| + |b|] == b
  {
    forall x | 0 <= x < |a|
      ensures all[o..o + |a|][x] == a[x]
    {
      assert all[o + x] == all[o..o + |a| + |b|][x];
    }
    forall x | 0 <= x < |b|
      ensures all[o + |a|..o + |a| + |b|][x] == b[x]
    {
      assert all[o + |a| + x] == all[o..o + |a| + |b|][|a| + x];
    }
  }

  /** Every payload's length fits the 4-byte length prefix. */
  predicate Storable(payloads: seq<seq<byte>>) {
    forall k :: 0 <= k < |payloads| ==> |payloads[k]| < Pow256(4)
  }

  /** The records of payloads i, i+1, ...: each the 4-byte little-endian
      length of its payload, then the payload. */
  function RecordList(payloads: seq<seq<byte>>, i: nat): (r: seq<seq<byte>>)
    requires Storable(payloads) && i <= |payloads|
    ensures |r| == |payloads| - i
    decreases |payloads| - i
  {
    if i == |payloads| then []
    else [EncodeLittleEndian(|payloads[i]|, 4) + payloads[i]] + RecordList(payloads, i + 1)
  }

  lemma {:induction false} RecordListAt(payloads: seq<seq<byte>>, i: nat, k: nat)
    requires Storable(payloads) && i + k < |payloads|
    ensures RecordList(payloads, i)[k] == EncodeLittleEndian(|payloads[i + k]|, 4) + payloads[i + k]
    decreases k
  {
    if k > 0 {
      RecordListAt(payloads, i + 1, k - 1);
    }
  }

  /** Where record k starts, counted from the first record. */
  function RecordOffset(payloads: seq<seq<byte>>, k: nat): nat
    requires Storable(payloads) && k <= |payloads|
  {
    |Join(RecordList(payloads, 0), k)|
  }

  /** Record k's length at `o`, its payload at `o + 4`, in a file of `front`
      followed by the records. */
  lemma RecordAt(front: seq<byte>, payloads: seq<seq<byte>>, k: nat, o: nat, payload: seq<byte>)
    requires Storable(payloads) && k < |payloads| && payload == payloads[k]
    requires o == |front| + RecordOffset(payloads, k)
    ensures o + 4 + |payload| <= |front + Join(RecordList(payloads, 0), |payloads|)|
    ensures (front + Join(RecordList(payloads, 0), |payloads|))[o..o + 4] == EncodeLittleEndian(|payload|, 4)
    ensures (front + Join(RecordList(payloads, 0), |payloads|))[o + 4..o + 4 + |payload|] == payload
  {
    var pieces := RecordList(payloads, 0);
    var len := EncodeLittleEndian(|payload|, 4);
    assert pieces[k] == len + payload by {
      RecordListAt(payloads, 0, k);
    }
    FrontPieceAt(front, pieces, |payloads|, k, o, len, payload, 4);
  }

  /** The offsets the index holds: record k's offset plus `start`. */
  function Offsets(payloads: seq<seq<byte>>, start: nat): (r: seq<nat>)
    requires Storable(payloads)
    ensures |r| == |payloads|
    ensures forall k :: 0 <= k < |r| ==> r[k] == start + RecordOffset(payloads, k)
  {
    PieceOffsets(RecordList(payloads, 0), start, 0)
  }

  /** `start` plus where piece i, i+1, ... starts. */
  function PieceOffsets<T>(pieces: seq<seq<T>>, start: nat, i: nat): (r: seq<nat>)
    requires i <= |pieces|
    ensures |r| == |pieces| - i
    ensures forall k :: 0 <= k < |r| ==> r[k] == start + |Join(pieces, i + k)|
    decreases |pieces| - i
  {
    if i == |pieces| then [] else [start + |Join(pieces, i)|] + PieceOffsets(pieces, start, i + 1)
  }

  /** Every offset fits `width` bytes. */
  predicate Fits(offsets: seq<nat>, width: nat) {
    forall k :: 0 <= k < |offsets| ==> offsets[k] < Pow256(width)
  }

  /** Offsets fit when the end of the last record does. */
  lemma OffsetsFit(payloads: seq<seq<byte>>, start: nat, width: nat)
    requires Storable(payloads)
    requires start + RecordOffset(payloads, |payloads|) < Pow256(width)
    ensures Fits(Offsets(payloads, start), width)
  {
    var offsets := Offsets(payloads, start);
    forall k | 0 <= k < |offsets|
      ensures offsets[k] < Pow256(width)
    {
      JoinPrefix(RecordList(payloads, 0), k, |payloads|);
    }
  }

  /** The index entries of offsets i, i+1, ...: each `width` bytes little-endian,
      then `filler`. */
  function EntryList(offsets: seq<nat>, width: nat, filler: seq<byte>, i: nat): (r: seq<seq<byte>>)
    requires Fits(offsets, width) && i <= |offsets|
    ensures |r| == |offsets| - i
    ensures Uniform(r, width + |filler|)
    decreases |offsets| - i
  {
    if i == |offsets| then []
    else [EncodeLittleEndian(offsets[i], width) + filler] + EntryList(offsets, width, filler, i + 1)
  }

  lemma {:induction false} EntryListAt(offsets: seq<nat>, width: nat, filler: seq<byte>, i: nat, k: nat)
    requires Fits(offsets, width) && i + k < |offsets|
    ensures EntryList(offsets, width, filler, i)[k] == EncodeLittleEndian(offsets[i + k], width) + filler
    decreases k
  {
    if k > 0 {
      EntryListAt(offsets, width, filler, i + 1, k - 1);
    }
  }

  /** Entry k, after `front` and the k entries before it, holds offset k. */
  lemma EntryAt(front: seq<byte>, offsets: seq<nat>, width: nat, filler: seq<byte>, back: seq<byte>, k: nat, at: nat)
    requires Fits(offsets, width) && k < |offsets|
    requires at == |front| + |Join(EntryList(offsets, width, filler, 0), k)|
    ensures HoldsValue(front + Join(EntryList(offsets, width, filler, 0), |offsets|) + back, at, width, offsets[k])
  {
    var entries := EntryList(offsets, width, filler, 0);
    var a := EncodeLittleEndian(offsets[k], width);
    EntryListAt(offsets, width, filler, 0, k);
    FramedPieceAt(front, entries, back, |offsets|, k, at, a, filler);
  }

  /** A slice of `b` is found `|a|` further on in `a + b`. */
  lemma SliceOfBack<T>(a: seq<T>, b: seq<T>, i: nat, j: nat)
    requires i <= j <= |b|
    ensures (a + b)[|a| + i..|a| + j] == b[i..j]
  {
    forall x | 0 <= x < j - i
      ensures (a + b)[|a| + i..|a| + j][x] == b[i..j][x]
    {
      assert (a + b)[|a| + i + x] == b[i + x];
    }
  }

  /** A slice of the middle piece `b` is found `|a|` further on in `a + b + c`. */
  lemma MiddleSlice<T>(a: seq<T>, b: seq<T>, c: seq<T>, i: nat, j: nat)
    requires i <= j <= |b|
    ensures (a + b + c)[|a| + i..|a| + j] == b[i..j]
  {
    forall x | 0 <= x < j - i
      ensures (a + b + c)[|a| + i..|a| + j][x] == b[i..j][x]
    {
      assert (a + b + c)[|a| + i + x] == b[i + x];
    }
  }

  /** Two adjacent pieces `a`, `b` of `s` at `m` are found at `o`, `|front|`
      further on, in `full == front + s`. */
  lemma ShiftedPieces<T>(front: seq<T>, s: seq<T>, full: seq<T>, m: nat, o: nat, a: seq<T>, b: seq<T>, n: nat)
    requires full == front + s && o == |front| + m
    requires |a| == n && m + n + |b| <= |s|
    requires s[m..m + n] == a && s[m + n..m + n + |b|] == b
    ensures o + n + |b| <= |full|
    ensures full[o..o + n] == a
    ensures full[o + n..o + n + |b|] == b
  {
    SliceOfBack(front, s, m, m + n);
    SliceOfBack(front, s, m + n, m + n + |b|);
  }
}

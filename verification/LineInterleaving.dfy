/** Concurrent writes to one log writer: the lock is held for one piece at a time, so
    the pieces of different writes interleave.  Which interleavings keep lines whole. */
module LineInterleaving {
  import opened Errors
  import opened LineWriter

  /** What one write hands over under the lock, piece by piece: its lines, and what
      follows the last of them. */
  function Pieces(p: Bytes): seq<Bytes>
  {
    Lines(p) + if Rest(p) == [] then [] else [Rest(p)]
  }

  predicate Closed(piece: Bytes) { piece != [] && FirstLine(piece) == |piece| }

  predicate Open(piece: Bytes) { piece != [] && FirstLine(piece) == 0 }

  lemma PieceAt(p: Bytes, i: nat)
    requires i < |Pieces(p)|
    ensures |Pieces(p)| == |Lines(p)| + if Rest(p) == [] then 0 else 1
    ensures if i < |Lines(p)| then Closed(Pieces(p)[i]) else Rest(p) != [] && Open(Pieces(p)[i])
  {
    if i < |Lines(p)| {
      LinesAreWhole(p);
      assert Pieces(p)[i] == Lines(p)[i];
    } else {
      RestHasNoLine(p);
      assert Pieces(p)[i] == Rest(p);
    }
  }

  /** The pieces in the order in which the writes got the lock: `order` names the write
      whose next piece it is; `None` when that write has none left. */
  function Merge(queues: seq<seq<Bytes>>, order: seq<nat>): Option<seq<Bytes>>
    decreases |order|
  {
    if order == [] then Some([])
    else if order[0] < |queues| && queues[order[0]] != [] then
      var i := order[0];
      match Merge(queues[i := queues[i][1..]], order[1..])
      case None => None
      case Some(m) => Some([queues[i][0]] + m)
    else None
  }

  /** How often `i` occurs. */
  function Count(order: seq<nat>, i: nat): nat
  {
    if order == [] then 0 else Count(order[1..], i) + if order[0] == i then 1 else 0
  }

  lemma {:induction false} CountRises(order: seq<nat>, a: nat, b: nat, i: nat)
    requires a < b <= |order| && order[a] == i
    ensures Count(order[..a], i) < Count(order[..b], i)
  {
    assert order[..b][1..] == order[1..][..b - 1];
    if a > 0 {
      assert order[..a][1..] == order[1..][..a - 1];
      CountRises(order[1..], a - 1, b - 1, i);
    }
  }

  /** Each merged piece is the next one of its write. */
  lemma {:induction false} MergeAt(queues: seq<seq<Bytes>>, order: seq<nat>, m: seq<Bytes>, k: nat)
    requires Merge(queues, order) == Some(m) && k < |order|
    ensures |m| == |order| && order[k] < |queues|
    ensures var c := Count(order[..k], order[k]); c < |queues[order[k]]| && m[k] == queues[order[k]][c]
    decreases |order|
  {
    var i := order[0];
    var left := queues[i := queues[i][1..]];
    if k > 0 {
      MergeAt(left, order[1..], m[1..], k - 1);
      assert order[..k][1..] == order[1..][..k - 1];
    } else {
      MergeLength(queues, order, m);
    }
  }

  lemma {:induction false} MergeLength(queues: seq<seq<Bytes>>, order: seq<nat>, m: seq<Bytes>)
    requires Merge(queues, order) == Some(m)
    ensures |m| == |order|
    decreases |order|
  {
    if order != [] {
      var i := order[0];
      MergeLength(queues[i := queues[i][1..]], order[1..], m[1..]);
    }
  }

  // ---- What the log makes of the pieces ----

  predicate Piece(p: Bytes) { Closed(p) || Open(p) }

  /** The pieces that end with a newline. */
  function Enders(pieces: seq<Bytes>): seq<Bytes>
  {
    if pieces == [] then []
    else Enders(pieces[..|pieces| - 1]) + if Closed(pieces[|pieces| - 1]) then [pieces[|pieces| - 1]] else []
  }

  /** Each line of the log is one piece of one write. */
  predicate LinesWhole(pieces: seq<Bytes>) { Lines(Concat(pieces)) == Enders(pieces) }

  /** No piece that ends a line comes after one that does not. */
  predicate OpenLast(pieces: seq<Bytes>)
  {
    forall a, b :: 0 <= a < b < |pieces| && Open(pieces[a]) ==> !Closed(pieces[b])
  }

  lemma LinesSnoc(pieces: seq<Bytes>, p: Bytes)
    requires Piece(p)
    ensures Closed(p) ==> Lines(Concat(pieces + [p])) == Lines(Concat(pieces)) + [Rest(Concat(pieces)) + p]
    ensures Closed(p) ==> Rest(Concat(pieces + [p])) == []
    ensures Open(p) ==> Lines(Concat(pieces + [p])) == Lines(Concat(pieces)) && Rest(Concat(pieces + [p])) != []
  {
    ConcatSnoc(pieces, p);
    if Closed(p) {
      LineEnds(Concat(pieces), p);
    } else {
      LineGoes(Concat(pieces), p);
    }
  }

  lemma SameSnoc(a: seq<Bytes>, x: Bytes, b: seq<Bytes>, y: Bytes)
    ensures a + [x] == b + [y] <==> a == b && x == y
  {
    if a + [x] == b + [y] {
      assert |a| == |b|;
      assert (a + [x])[..|a|] == a && (b + [y])[..|b|] == b;
      assert (a + [x])[|a|] == x;
    }
  }

  lemma RestSnoc(pieces: seq<Bytes>, p: Bytes)
    requires Piece(p)
    ensures Rest(Concat(pieces + [p])) == [] <==> Closed(p)
  {
    LinesSnoc(pieces, p);
  }

  lemma RestOfAll(pieces: seq<Bytes>, cut: seq<Bytes>, p: Bytes)
    requires pieces == cut + [p] && Piece(p)
    ensures Rest(Concat(pieces)) == [] <==> Closed(p)
  {
    RestSnoc(cut, p);
  }

  lemma RestOfNone()
    ensures Rest(Concat([])) == []
  {
  }

  lemma OpenLastSnoc(pieces: seq<Bytes>, p: Bytes)
    requires (forall k :: 0 <= k < |pieces| ==> Piece(pieces[k])) && Piece(p)
    ensures OpenLast(pieces + [p]) <==>
              OpenLast(pieces) && (Closed(p) ==> pieces == [] || Closed(pieces[|pieces| - 1]))
  {
    var all := pieces + [p];
    if OpenLast(all) {
      assert forall a, b :: 0 <= a < b < |pieces| ==> all[a] == pieces[a] && all[b] == pieces[b];
      if pieces != [] {
        assert all[|pieces| - 1] == pieces[|pieces| - 1] && all[|pieces|] == p;
      }
    }
    if OpenLast(pieces) && (Closed(p) ==> pieces == [] || Closed(pieces[|pieces| - 1])) {
      NoneOpen(pieces, p);
      forall a, b | 0 <= a < b < |all| && Open(all[a]) ensures !Closed(all[b]) {
        assert all[a] == pieces[a];
        assert b < |pieces| ==> all[b] == pieces[b];
      }
    }
  }

  lemma NoneOpen(pieces: seq<Bytes>, p: Bytes)
    requires OpenLast(pieces) && (Closed(p) ==> pieces == [] || Closed(pieces[|pieces| - 1]))
    ensures Closed(p) ==> forall a :: 0 <= a < |pieces| ==> !Open(pieces[a])
  {
    if a :| Closed(p) && 0 <= a < |pieces| && Open(pieces[a]) {
      assert false;
    }
  }

  /** Exactly when the lines of the log are whole: the pieces that came under the lock
      have none that leaves a line open before one that ends a line. */
  lemma {:induction false} WholeExactly(pieces: seq<Bytes>)
    requires forall k :: 0 <= k < |pieces| ==> Piece(pieces[k])
    ensures LinesWhole(pieces) <==> OpenLast(pieces)
  {
    if pieces != [] {
      var n := |pieces| - 1;
      var cut, p := pieces[..n], pieces[n];
      assert pieces == cut + [p];
      WholeExactly(cut);
      if cut == [] {
        RestOfNone();
      } else {
        assert cut == cut[..n - 1] + [cut[n - 1]];
        RestOfAll(cut, cut[..n - 1], cut[n - 1]);
      }
      OpenLastSnoc(cut, p);
      WholeSnoc(cut, p);
    }
  }

  lemma AddNothing(a: Bytes, p: Bytes)
    ensures a + p == p <==> a == []
  {
    if a + p == p {
      assert |a| == 0;
    } else {
      assert [] + p == p;
    }
  }

  lemma WholeSnoc(cut: seq<Bytes>, p: Bytes)
    requires Piece(p)
    ensures LinesWhole(cut + [p]) <==> LinesWhole(cut) && (Closed(p) ==> Rest(Concat(cut)) == [])
  {
    LinesSnoc(cut, p);
    assert (cut + [p])[..|cut|] == cut;
    if Closed(p) {
      SameSnoc(Lines(Concat(cut)), Rest(Concat(cut)) + p, Enders(cut), p);
      AddNothing(Rest(Concat(cut)), p);
    } else {
      assert Enders(cut) + [] == Enders(cut);
    }
  }

  // ---- Any writes, in any interleaving ----

  function PiecesOf(writes: seq<Bytes>): (queues: seq<seq<Bytes>>)
    ensures |queues| == |writes| && forall i :: 0 <= i < |writes| ==> queues[i] == Pieces(writes[i])
  {
    seq(|writes|, i requires 0 <= i < |writes| => Pieces(writes[i]))
  }

  lemma MergedPiece(writes: seq<Bytes>, order: seq<nat>, m: seq<Bytes>, k: nat)
    requires Merge(PiecesOf(writes), order) == Some(m) && k < |order|
    ensures |m| == |order| && order[k] < |writes| && Piece(m[k])
    ensures Closed(m[k]) ==> Lines(writes[order[k]]) != []
    ensures Open(m[k]) ==> Rest(writes[order[k]]) != []
                           && Count(order[..k], order[k]) == |Pieces(writes[order[k]])| - 1
  {
    MergeAt(PiecesOf(writes), order, m, k);
    PieceAt(writes[order[k]], Count(order[..k], order[k]));
  }

  /** A write that does not end with a newline is alone in having lines. */
  ghost predicate TailsAlone(writes: seq<Bytes>)
  {
    forall i, j :: 0 <= i < |writes| && 0 <= j < |writes| && i != j && Rest(writes[i]) != [] ==> Lines(writes[j]) == []
  }

  lemma TailsKeepOrder(writes: seq<Bytes>, order: seq<nat>, m: seq<Bytes>)
    requires Merge(PiecesOf(writes), order) == Some(m) && TailsAlone(writes)
    ensures |m| == |order| && OpenLast(m) && forall k :: 0 <= k < |m| ==> Piece(m[k])
  {
    MergeLength(PiecesOf(writes), order, m);
    forall k | 0 <= k < |m| ensures Piece(m[k]) {
      MergedPiece(writes, order, m, k);
    }
    forall a, b | 0 <= a < b < |m| && Open(m[a]) ensures !Closed(m[b]) {
      MergedPiece(writes, order, m, a);
      MergedPiece(writes, order, m, b);
      if order[a] == order[b] {
        CountRises(order, a, b, order[a]);
        MergeAt(PiecesOf(writes), order, m, b);
      }
    }
  }

  /** One write hands over all it has. */
  function Times(n: nat, i: nat): seq<nat> { seq(n, _ => i) }

  lemma {:induction false} MergeOne(queues: seq<seq<Bytes>>, i: nat, j: nat)
    requires i < |queues| && j < |queues| && i != j && queues[j] != []
    ensures Merge(queues, Times(|queues[i]|, i) + [j]) == Some(queues[i] + [queues[j][0]])
    decreases |queues[i]|
  {
    var order := Times(|queues[i]|, i) + [j];
    if queues[i] == [] {
      assert order == [j] && order[1..] == [];
      assert queues[i] + [queues[j][0]] == [queues[j][0]] + [];
    } else {
      var left := queues[i := queues[i][1..]];
      MergeOne(left, i, j);
      assert order[1..] == Times(|left[i]|, i) + [j];
      assert queues[i] + [queues[j][0]] == [queues[i][0]] + (left[i] + [left[j][0]]);
    }
  }

  /** The writes got the lock in this order, and the log has a line of two writes. */
  predicate Mixes(writes: seq<Bytes>, order: seq<nat>)
  {
    var m := Merge(PiecesOf(writes), order);
    m.Some? && !LinesWhole(m.value)
  }

  /** Exactly which concurrent writes keep their lines whole: no order of the lock makes
      a line of more than one piece if and only if no write leaves its last line open
      while another has a line.  When all writes end with a newline, none does. */
  lemma LinesStayWhole(writes: seq<Bytes>)
    ensures (forall order :: !Mixes(writes, order)) <==> TailsAlone(writes)
    ensures (forall i :: 0 <= i < |writes| ==> Rest(writes[i]) == []) ==> TailsAlone(writes)
  {
    if TailsAlone(writes) {
      forall order ensures !Mixes(writes, order) {
        var m := Merge(PiecesOf(writes), order);
        if m.Some? {
          TailsKeepOrder(writes, order, m.value);
          WholeExactly(m.value);
        }
      }
    } else {
      var i, j :| 0 <= i < |writes| && 0 <= j < |writes| && i != j && Rest(writes[i]) != [] && Lines(writes[j]) != [];
      var order := MixingOrder(writes, i, j);
    }
  }

  lemma MixingOrder(writes: seq<Bytes>, i: nat, j: nat) returns (order: seq<nat>)
    requires i < |writes| && j < |writes| && i != j && Rest(writes[i]) != [] && Lines(writes[j]) != []
    ensures Mixes(writes, order)
  {
    var queues := PiecesOf(writes);
    assert |queues[i]| == |Lines(writes[i])| + 1;
    PieceAt(writes[i], |queues[i]| - 1);
    PieceAt(writes[j], 0);
    order := Times(|queues[i]|, i) + [j];
    MergeOne(queues, i, j);
    var m := queues[i] + [queues[j][0]];
    forall k | 0 <= k < |m| ensures Piece(m[k]) {
      if k < |queues[i]| {
        PieceAt(writes[i], k);
      }
    }
    assert Open(m[|queues[i]| - 1]) && Closed(m[|queues[i]|]);
    WholeExactly(m);
  }

  /** The pieces in the order they came under the lock, handed to the writer: it holds
      their concatenation, as if one write had brought it. */
  method WritePieces(w: Writer, pieces: seq<Bytes>)
    requires w.Holds([]) && forall k :: 0 <= k < |pieces| ==> Piece(pieces[k])
    modifies w
    ensures w.Holds(Concat(pieces))
  {
    for k := 0 to |pieces|
      invariant w.Holds(Concat(pieces[..k]))
    {
      var err := w.WritePiece(pieces[k], FirstLine(pieces[k]) > 0, Concat(pieces[..k]));
      ConcatSnoc(pieces[..k], pieces[k]);
      assert pieces[..k + 1] == pieces[..k] + [pieces[k]];
    }
    assert pieces[..|pieces|] == pieces;
  }
}

/** Pieces of a file laid end to end. */
module Pieces {
  import opened Types

  type Content = seq<Byte>

  function Concat(parts: seq<Content>): Content {
    if parts == [] then [] else Concat(parts[..|parts| - 1]) + parts[|parts| - 1]
  }

  lemma ConcatSnoc(parts: seq<Content>, last: Content)
    ensures Concat(parts + [last]) == Concat(parts) + last
  {
    assert (parts + [last])[..|parts|] == parts;
  }

  /** Cut points that rise from 0: piece i of a file runs from cuts[i] to cuts[i + 1]. */
  predicate Cuts(cuts: seq<nat>) {
    cuts != [] && cuts[0] == 0 && forall i | 0 < i < |cuts| :: cuts[i - 1] <= cuts[i]
  }

  predicate Rising(cuts: seq<nat>) {
    forall i | 0 < i < |cuts| :: cuts[i - 1] < cuts[i]
  }

  predicate FitCuts(cuts: seq<nat>, file: Content) {
    Cuts(cuts) && forall i | 0 <= i < |cuts| :: cuts[i] <= |file|
  }

  function Piece(file: Content, cuts: seq<nat>, i: nat): Content
    requires FitCuts(cuts, file) && i + 1 < |cuts|
  {
    file[cuts[i]..cuts[i + 1]]
  }

  /** Each part is its piece of the file, or what an interrupted transfer left of it. */
  predicate Partly(parts: seq<Content>, file: Content, cuts: seq<nat>) {
    FitCuts(cuts, file) && |parts| < |cuts| && forall i | 0 <= i < |parts| :: parts[i] <= Piece(file, cuts, i)
  }

  lemma {:induction false} PartsAreNoLonger(parts: seq<Content>, file: Content, cuts: seq<nat>)
    requires Partly(parts, file, cuts)
    ensures |Concat(parts)| <= cuts[|parts|]
  {
    if parts != [] {
      PartsAreNoLonger(parts[..|parts| - 1], file, cuts);
      assert parts[|parts| - 1] <= Piece(file, cuts, |parts| - 1);
    }
  }

  /** Merging gives the file up to the last cut exactly when no part is cut short. */
  lemma {:induction false} MergedIffComplete(parts: seq<Content>, file: Content, cuts: seq<nat>)
    requires Partly(parts, file, cuts)
    ensures Concat(parts) == file[..cuts[|parts|]] <==> forall i | 0 <= i < |parts| :: parts[i] == Piece(file, cuts, i)
  {
    if parts != [] {
      var n := |parts| - 1;
      var front := parts[..n];
      assert parts[n] <= Piece(file, cuts, n);
      assert forall i | 0 <= i < n :: front[i] == parts[i];
      MergedIffComplete(front, file, cuts);
      PartsAreNoLonger(front, file, cuts);
      assert file[..cuts[n + 1]] == file[..cuts[n]] + Piece(file, cuts, n);
      if Concat(parts) == file[..cuts[n + 1]] {
        assert |Concat(front)| == cuts[n] && |parts[n]| == |Piece(file, cuts, n)|;
        assert Concat(front) == Concat(parts)[..cuts[n]] == file[..cuts[n + 1]][..cuts[n]] == file[..cuts[n]];
      }
    }
  }

  /** Parts that reach to the end of the file. */
  lemma MergedFileIffComplete(parts: seq<Content>, file: Content, cuts: seq<nat>)
    requires Partly(parts, file, cuts) && cuts[|parts|] == |file|
    ensures Concat(parts) == file <==> forall i | 0 <= i < |parts| :: parts[i] == Piece(file, cuts, i)
  {
    MergedIffComplete(parts, file, cuts);
    assert file[..|file|] == file;
  }

  /** Nothing of the right length can be missing anything. */
  lemma {:induction false} FullLengthIsComplete(parts: seq<Content>, file: Content, cuts: seq<nat>)
    requires Partly(parts, file, cuts) && |Concat(parts)| == cuts[|parts|]
    ensures Concat(parts) == file[..cuts[|parts|]]
  {
    if parts != [] {
      var n := |parts| - 1;
      assert parts[n] <= Piece(file, cuts, n);
      PartsAreNoLonger(parts[..n], file, cuts);
      FullLengthIsComplete(parts[..n], file, cuts);
      assert file[..cuts[n + 1]] == file[..cuts[n]] + Piece(file, cuts, n);
    }
  }
}

// A sequence cut into consecutive pieces, one per key, in the order of the
// keys. The coding set is cut into one block per company group and the
// auto-coded frame into one stretch per company; both are instances.
module Tiling {

  /** The summed sizes of the pieces for the keys `cs`. */
  function Total<C>(size: C -> nat, cs: seq<C>): nat
    decreases |cs|
  {
    if |cs| == 0 then 0 else Total(size, cs[..|cs| - 1]) + size(cs[|cs| - 1])
  }

  lemma TotalStep<C>(size: C -> nat, cs: seq<C>, i: nat)
    requires i < |cs|
    ensures Total(size, cs[..i + 1]) == Total(size, cs[..i]) + size(cs[i])
  {
    assert cs[..i + 1][..i] == cs[..i];
  }

  /**
   * `s` is cut into one piece per key of `cs`, in order: the piece for key
   * `c` has `size(c)` elements and satisfies `piece(c, ·)`.
   */
  ghost predicate Tiled<C, T>(piece: (C, seq<T>) -> bool, size: C -> nat, cs: seq<C>, s: seq<T>)
    decreases |cs|
  {
    if |cs| == 0 then |s| == 0
    else
      var q := size(cs[|cs| - 1]);
      |s| >= q
      && Tiled(piece, size, cs[..|cs| - 1], s[..|s| - q])
      && piece(cs[|cs| - 1], s[|s| - q..])
  }

  /** The pieces fill the sequence: its length is the summed size. */
  lemma {:induction false} TiledLength<C, T>(piece: (C, seq<T>) -> bool, size: C -> nat, cs: seq<C>, s: seq<T>)
    requires Tiled(piece, size, cs, s)
    ensures |s| == Total(size, cs)
    decreases |cs|
  {
    if |cs| != 0 {
      TiledLength(piece, size, cs[..|cs| - 1], s[..|s| - size(cs[|cs| - 1])]);
    }
  }

  /** A piece for the next key extends a cut of the keys before it. */
  lemma TiledStep<C, T>(piece: (C, seq<T>) -> bool, size: C -> nat, cs: seq<C>, i: nat, s: seq<T>, added: seq<T>)
    requires i < |cs| && Tiled(piece, size, cs[..i], s)
    requires piece(cs[i], added) && |added| == size(cs[i])
    ensures Tiled(piece, size, cs[..i + 1], s + added)
  {
    var p := cs[..i + 1];
    assert p[..|p| - 1] == cs[..i] && p[|p| - 1] == cs[i];
    var w := s + added;
    assert w[..|w| - |added|] == s && w[|w| - |added|..] == added;
  }

  /**
   * Where a key's piece sits: the piece for key `i` starts after the pieces
   * of the keys before it.
   */
  lemma {:induction false} TileAt<C, T>(piece: (C, seq<T>) -> bool, size: C -> nat, cs: seq<C>, s: seq<T>, i: nat)
    requires Tiled(piece, size, cs, s) && i < |cs|
    ensures Total(size, cs[..i]) + size(cs[i]) <= |s|
    ensures piece(cs[i], s[Total(size, cs[..i])..Total(size, cs[..i]) + size(cs[i])])
    decreases |cs|
  {
    var before := cs[..|cs| - 1];
    var q := size(cs[|cs| - 1]);
    var kept := s[..|s| - q];
    var start := Total(size, cs[..i]);
    if i == |cs| - 1 {
      assert cs[..i] == before;
      TiledLength(piece, size, before, kept);
      assert s[start..start + q] == s[|s| - q..];
    } else {
      assert before[..i] == cs[..i] && before[i] == cs[i];
      TileAt(piece, size, before, kept, i);
      assert kept[start..start + size(cs[i])] == s[start..start + size(cs[i])];
    }
  }
}

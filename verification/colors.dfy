/** Round-robin cursor colours (server/src/utils/colors.ts). The
    module-level `colorIndex` counter is the explicit `index` argument. */
module CursorColors {

  const Palette: seq<string> := [
    "#e74c3c", "#3498db", "#2ecc71", "#f39c12", "#9b59b6", "#1abc9c",
    "#e67e22", "#e84393", "#00b894", "#6c5ce7", "#fd79a8", "#00cec9"
  ]

  /** `getNextCursorColor`: the colour for the current counter value, and
      the advanced counter. */
  function NextCursorColor(index: nat): (res: (string, nat))
    ensures res.1 == index + 1
  {
    (Palette[index % |Palette|], index + 1)
  }

  /** Every colour comes from the palette, and the colours repeat with the
      palette's length as period. */
  lemma ColorCycle(index: nat)
    ensures NextCursorColor(index).0 in Palette
    ensures NextCursorColor(index + |Palette|).0 == NextCursorColor(index).0
  {
    assert (index + |Palette|) % |Palette| == index % |Palette|;
  }

  /** The colours returned by `n` successive calls starting at counter
      `index`: call k is the one made with the counter at `index + k`. */
  function Colors(index: nat, n: nat): (r: seq<string>)
    ensures |r| == n
    ensures forall k :: 0 <= k < n ==> r[k] == NextCursorColor(index + k).0
    decreases n
  {
    if n == 0 then []
    else
      var (c, next) := NextCursorColor(index);
      [c] + Colors(next, n - 1)
  }

  /** Call k (from 0) of a series started with the counter at `index`
      returns palette entry (index + k) mod 12; from a fresh counter, entry
      k mod 12. */
  lemma KthColor(index: nat, n: nat, k: nat)
    requires k < n
    ensures Colors(index, n)[k] == Palette[(index + k) % 12]
  {
    assert Colors(index, n)[k] == NextCursorColor(index + k).0;
  }

  lemma PaletteDistinct()
    ensures |Palette| == 12
    ensures forall i, j :: 0 <= i < j < 12 ==> Palette[i] != Palette[j]
  {
    forall i, j | 0 <= i < j < 12
      ensures Palette[i] != Palette[j]
    {
      assert Palette[i][1..3] != Palette[j][1..3] || Palette[i][3..] != Palette[j][3..];
    }
  }

  /** Different palette positions hold different colours. */
  lemma PaletteEntriesDiffer(a: int, b: int)
    requires 0 <= a < 12 && 0 <= b < 12 && a != b
    ensures Palette[a] != Palette[b]
  {
    PaletteDistinct();
    if a > b {
      assert Palette[b] != Palette[a];
    }
  }

  /** Calls `i` and `j` of fewer than 13 successive calls return different colours. */
  lemma PairDistinct(index: nat, n: nat, i: int, j: int)
    requires n <= 12 && 0 <= i < j < n
    ensures Colors(index, n)[i] != Colors(index, n)[j]
  {
    ModDistinct(index + i, j - i);
    PaletteEntriesDiffer((index + i) % 12, (index + j) % 12);
  }

  /** Any 12 (or fewer) consecutive calls return pairwise different colours. */
  lemma ConsecutiveDistinct(index: nat, n: nat)
    requires n <= 12
    ensures forall i, j :: 0 <= i < j < n ==> Colors(index, n)[i] != Colors(index, n)[j]
  {
    forall i, j | 0 <= i < j < n
      ensures Colors(index, n)[i] != Colors(index, n)[j]
    {
      PairDistinct(index, n, i, j);
    }
  }

  /** Two successive palette colours differ. */
  lemma SuccessiveColorsDiffer(index: nat)
    ensures Palette[index % 12] != Palette[(index + 1) % 12]
  {
    ConsecutiveDistinct(index, 2);
    assert Colors(index, 2)[0] == NextCursorColor(index).0;
  }

  lemma ModDistinct(a: nat, d: int)
    requires 0 < d < 12
    ensures a % 12 != (a + d) % 12
  {
    assert a == 12 * (a / 12) + a % 12;
    assert a + d == 12 * ((a + d) / 12) + (a + d) % 12;
  }
}

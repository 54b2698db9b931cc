/**
 * Slot keys: the search identifies a slot by one Java int that packs its
 * orientation (0 = down, 1 = across), its row and its column as
 * `across << 16 | row << 8 | col`. The history of placed slots is an
 * insertion-ordered map from such keys to word indices.
 */
module SlotKeys {

  /** Packs a slot's orientation, row and column into its key,
      `across << 16 | row << 8 | col`. The three fields are non-negative and
      do not overlap, so each shift is a multiplication by a power of two and
      the `|` an addition. */
  function Key(across: int, row: int, col: int): (k: int)
    requires 0 <= across <= 1 && 0 <= row < 256 && 0 <= col < 256
    ensures 0 <= k < 0x20000
    ensures KeyAcross(k) == across && KeyRow(k) == row && KeyCol(k) == col
  {
    across * 0x10000 + row * 0x100 + col
  }

  /** `slot >> 16`: the orientation part of a non-negative key. */
  function KeyAcross(k: int): int
    requires 0 <= k
  {
    k / 0x10000
  }

  /** `slot >> 8 & 0xff`: the row part of a non-negative key. */
  function KeyRow(k: int): int
    requires 0 <= k
  {
    (k / 0x100) % 0x100
  }

  /** `slot & 0xff`: the column part of a non-negative key. */
  function KeyCol(k: int): int
    requires 0 <= k
  {
    k % 0x100
  }

  /** Two slots get the same key exactly when they are the same slot; in
      particular down and across at one anchor cell never collide. */
  lemma KeyInjective(a1: int, r1: int, c1: int, a2: int, r2: int, c2: int)
    requires 0 <= a1 <= 1 && 0 <= r1 < 256 && 0 <= c1 < 256
    requires 0 <= a2 <= 1 && 0 <= r2 < 256 && 0 <= c2 < 256
    ensures Key(a1, r1, c1) == Key(a2, r2, c2) <==> a1 == a2 && r1 == r2 && c1 == c2
  {
    if Key(a1, r1, c1) == Key(a2, r2, c2) {
      assert KeyAcross(Key(a1, r1, c1)) == KeyAcross(Key(a2, r2, c2));
      assert KeyRow(Key(a1, r1, c1)) == KeyRow(Key(a2, r2, c2));
      assert KeyCol(Key(a1, r1, c1)) == KeyCol(Key(a2, r2, c2));
    }
  }

  /** One history entry: the key of a filled slot and the index of its word
      within the bin for the slot's length. */
  datatype Entry = Entry(key: int, choice: int)

  /** The key set of a history (`hist.keySet()`). */
  function Keys(hist: seq<Entry>): (ks: set<int>)
    ensures forall t :: 0 <= t < |hist| ==> hist[t].key in ks
    ensures forall k :: k in ks ==> exists t :: 0 <= t < |hist| && hist[t].key == k
  {
    set e | e in hist :: e.key
  }
}

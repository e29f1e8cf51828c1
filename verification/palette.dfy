/**
 * The fixed six-entry colour palette of the mind map (`categoria_colores`)
 * and the per-generation rotation through it.  The colours the builder can
 * hand out are the six palette entries and the 'gray' fallback; they are
 * modelled as an enumeration whose `Hex` gives the exact attribute string.
 */
module Palette {

  datatype Color = Blue | Green | Purple | Olive | Orange | Red | Gray

  /** The attribute string of each colour. */
  function Hex(c: Color): string {
    match c
    case Blue => "#1f77b4"
    case Green => "#2ca02c"
    case Purple => "#9467bd"
    case Olive => "#bcbd22"
    case Orange => "#ff7f0e"
    case Red => "#d62728"
    case Gray => "gray"
  }

  /** Different colours have different attribute strings. */
  lemma HexInjective(a: Color, b: Color)
    ensures Hex(a) == Hex(b) <==> a == b
  {
  }

  /** The palette, in the order the rotation walks it. */
  const Colors: seq<Color> := [Blue, Green, Purple, Olive, Orange, Red]

  /** The colour used when a parent's colour is not a palette entry. */
  const Fallback: Color := Gray

  /** Position of the first occurrence of `c` in `s` (Python's `list.index`). */
  function FirstIndex(s: seq<Color>, c: Color): (i: nat)
    requires c in s
    ensures i < |s| && s[i] == c
    ensures forall j :: 0 <= j < i ==> s[j] != c
  {
    if s[0] == c then 0 else 1 + FirstIndex(s[1..], c)
  }

  /** The palette holds six pairwise different colours, none of them the fallback. */
  lemma PaletteWellFormed()
    ensures |Colors| == 6
    ensures forall i, j :: 0 <= i < j < |Colors| ==> Colors[i] != Colors[j]
    ensures Fallback !in Colors
  {
  }

  /**
   * The colour handed to the children of a node coloured `c`: the next
   * palette entry, cyclically, or the fallback when `c` is off the palette.
   */
  function NextColor(c: Color): Color {
    match c
    case Blue => Green
    case Green => Purple
    case Purple => Olive
    case Olive => Orange
    case Orange => Red
    case Red => Blue
    case Gray => Fallback
  }

  /**
   * `NextColor` is the builder's rule: the entry after the first occurrence
   * of `c` in the palette, modulo the palette's length, or the fallback.
   */
  lemma NextColorByIndex(c: Color)
    ensures c in Colors ==> NextColor(c) == Colors[(FirstIndex(Colors, c) + 1) % |Colors|]
    ensures c !in Colors ==> NextColor(c) == Fallback
  {
    if c in Colors {
      NextColorRotates(FirstIndex(Colors, c));
    }
  }

  /** The rotation moves every palette entry to the one after it, the last back to the first, and never stays put. */
  lemma NextColorRotates(i: nat)
    requires i < |Colors|
    ensures NextColor(Colors[i]) == Colors[(i + 1) % 6]
    ensures NextColor(Colors[i]) != Colors[i]
  {
  }

  /**
   * The colour of a node at tree depth `depth`: the root and its direct
   * children both get the first entry, and every later generation rotates
   * its parent's colour.
   */
  function DepthColor(depth: nat): (r: Color)
    ensures r in Colors
  {
    if depth <= 1 then Colors[0] else NextColor(DepthColor(depth - 1))
  }

  /** The colour `n` generations below a node coloured `c`: `n` rotations. */
  function ColorAfter(c: Color, n: nat): Color
    decreases n
  {
    if n == 0 then c else ColorAfter(NextColor(c), n - 1)
  }

  /** Below the first generation, `n` rotations lead from the colour of one depth to that of `n` levels deeper. */
  lemma {:induction false} DepthColorAfter(depth: nat, n: nat, m: nat)
    requires depth >= 1 && m == depth + n
    ensures ColorAfter(DepthColor(depth), n) == DepthColor(m)
    decreases n
  {
    if n > 0 {
      var next := depth + 1;
      assert DepthColor(next) == NextColor(DepthColor(depth));
      DepthColorAfter(next, n - 1, m);
    }
  }

  /** Counting one further advances the position in a cycle of six by one, cyclically. */
  lemma ModSuccessor(k: nat)
    ensures (k % 6 + 1) % 6 == (k + 1) % 6
  {
    var q, r := k / 6, k % 6;
    assert k == 6 * q + r;
    if r < 5 {
      assert k + 1 == 6 * q + (r + 1);
    } else {
      assert k + 1 == 6 * (q + 1);
    }
  }

  /** Below the root, the colour of depth `d` is palette entry `(d - 1) mod 6`. */
  lemma {:induction false} DepthColorClosedForm(depth: nat)
    requires depth >= 1
    ensures DepthColor(depth) == Colors[(depth - 1) % 6]
  {
    if depth > 1 {
      var prev := depth - 1;
      var k := (prev - 1) % 6;
      DepthColorClosedForm(prev);
      assert DepthColor(prev) == Colors[k];
      NextColorRotates(k);
      ModSuccessor(prev - 1);
      assert (k + 1) % 6 == (depth - 1) % 6;
      assert DepthColor(depth) == NextColor(Colors[k]);
    }
  }

  /** Depth colours repeat with period six below the first generation, and the first two generations agree. */
  lemma DepthColorPeriodic(depth: nat)
    requires depth >= 1
    ensures DepthColor(depth + |Colors|) == DepthColor(depth)
    ensures DepthColor(1) == DepthColor(0)
  {
    var k := depth - 1;
    DepthColorClosedForm(depth);
    DepthColorClosedForm(depth + 6);
    assert depth + 6 - 1 == k + 6;
    assert (k + 6) % 6 == k % 6;
  }
}

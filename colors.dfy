/**
 * Colour preference and the pairing test used inside a score group.
 */
module Colors {
  import opened Players

  /** How often `c` occurs in a colour history. */
  function ColorCount(h: seq<Color>, c: Color): nat
  {
    if h == [] then 0 else ColorCount(h[..|h| - 1], c) + (if h[|h| - 1] == c then 1 else 0)
  }

  /** The gap between the numbers of whites and blacks played. */
  function Imbalance(h: seq<Color>): nat
  {
    var w, b := ColorCount(h, White), ColorCount(h, Black);
    if w >= b then w - b else b - w
  }

  /**
   * The colour a player asks for next: the strictly less used one; on a tie,
   * the opposite of the last colour played, and White before any game.
   */
  function PreferredColor(h: seq<Color>): (c: Color)
    ensures ColorCount(h, White) < ColorCount(h, Black) ==> c == White
    ensures ColorCount(h, Black) < ColorCount(h, White) ==> c == Black
    ensures ColorCount(h, White) == ColorCount(h, Black) && h != [] ==> c != h[|h| - 1]
    ensures h == [] ==> c == White
  {
    var w, b := ColorCount(h, White), ColorCount(h, Black);
    if w < b then White
    else if b < w then Black
    else if h != [] && h[|h| - 1] == White then Black
    else White
  }

  /**
   * Whether `p2` may be the partner of `p1` inside a score group: they have not
   * met as `p1`'s record shows, and their preferences differ unless `p1` has
   * not played yet.
   */
  predicate CanBePaired(p1: Player, p2: Player)
    ensures CanBePaired(p1, p2) ==> p2.id !in p1.opponents
    ensures p2.id !in p1.opponents && p1.colorHistory == [] ==> CanBePaired(p1, p2)
    ensures p2.id !in p1.opponents && p1.colorHistory != [] ==>
              (CanBePaired(p1, p2) <==> PreferredColor(p1.colorHistory) != PreferredColor(p2.colorHistory))
  {
    if p2.id in p1.opponents then false
    else PreferredColor(p1.colorHistory) != PreferredColor(p2.colorHistory) || |p1.colorHistory| == 0
  }

  lemma ColorCountAppend(h: seq<Color>, c: Color, d: Color)
    ensures ColorCount(h + [c], d) == ColorCount(h, d) + (if c == d then 1 else 0)
  {
    assert (h + [c])[..|h|] == h;
  }

  /**
   * Playing the preferred colour always moves the balance towards even: an
   * uneven history gets one step closer to even, an even one becomes off by one.
   */
  lemma PreferredColorRebalances(h: seq<Color>)
    ensures Imbalance(h + [PreferredColor(h)]) == if Imbalance(h) == 0 then 1 else Imbalance(h) - 1
  {
    ColorCountAppend(h, PreferredColor(h), White);
    ColorCountAppend(h, PreferredColor(h), Black);
  }

  /** Every colour in `h` is the one the player preferred when it was played. */
  ghost predicate AlwaysPreferred(h: seq<Color>)
  {
    forall k :: 0 <= k < |h| ==> h[k] == PreferredColor(h[..k])
  }

  /**
   * A player who always receives the preferred colour plays White, Black,
   * White, Black, ... from the first round on.
   */
  lemma {:induction false} AlwaysPreferredAlternates(h: seq<Color>)
    requires AlwaysPreferred(h)
    ensures forall k :: 0 <= k < |h| ==> h[k] == if k % 2 == 0 then White else Black
    ensures ColorCount(h, White) == (|h| + 1) / 2 && ColorCount(h, Black) == |h| / 2
  {
    if h != [] {
      var n := |h| - 1;
      var g := h[..n];
      assert h == g + [h[n]];
      forall k | 0 <= k < |g| ensures g[k] == PreferredColor(g[..k]) {
        assert g[..k] == h[..k];
      }
      AlwaysPreferredAlternates(g);
      assert h[n] == PreferredColor(g);
      ColorCountAppend(g, h[n], White);
      ColorCountAppend(g, h[n], Black);
    }
  }
}

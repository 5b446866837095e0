/** Scrolling: which lines of a text are shown, and where the scrollbar's thumb stands, in
    64-bit integer arithmetic. */
module Viewport {
  const TWO63: int := 0x8000_0000_0000_0000
  const TWO64: int := 0x1_0000_0000_0000_0000

  /** The machine's signed and unsigned 64-bit integers. */
  type Int = x: int | -0x8000_0000_0000_0000 <= x < 0x8000_0000_0000_0000

  type Word = x: int | 0 <= x < 0x1_0000_0000_0000_0000

  const NO_ACTIVE_LINE: Int := -1

  // ------------------------------------------------------------------ arithmetic

  lemma Scale(a: int, b: int, d: int)
    requires d >= 0 && a <= b
    ensures a * d <= b * d
  {
  }

  lemma Quotient(n: int, d: int)
    requires n >= 0 && d > 0
    ensures n == n / d * d + n % d && 0 <= n % d < d && n / d >= 0
  {
  }

  /** n / d < k if n < k * d. */
  lemma QuotientBelow(n: int, d: int, k: int)
    requires 0 <= n < k * d && d > 0
    ensures 0 <= n / d < k
  {
  }

  lemma ProductFits(x: Word, y: Word)
    ensures 0 <= x as int * y as int
    ensures 0 <= x as int * y as int / TWO64 < TWO64
  {
    var a, b := x as int, y as int;
    Scale(0, a, b);
    Scale(a, TWO64 - 1, b);
    Scale(b, TWO64 - 1, TWO64 - 1);
    QuotientBelow(a * b, TWO64, TWO64);
  }

  /** The 128-bit product of two words, high and low word. */
  function Mul64(x: Word, y: Word): (Word, Word) {
    ProductFits(x, y);
    (x as int * y as int / TWO64, x as int * y as int % TWO64)
  }

  /** Quotient and remainder of a 128-bit number; the machine instruction traps unless the
      quotient fits, that is, unless the divisor exceeds the high word. */
  function Div64(hi: Word, lo: Word, divisor: Word): (Word, Word)
    requires hi < divisor
  {
    QuotientFits(hi, lo, divisor);
    ((hi as int * TWO64 + lo as int) / divisor as int, (hi as int * TWO64 + lo as int) % divisor as int)
  }

  lemma QuotientFits(hi: Word, lo: Word, divisor: Word)
    requires hi < divisor
    ensures 0 <= (hi as int * TWO64 + lo as int) / divisor as int < TWO64
    ensures 0 <= (hi as int * TWO64 + lo as int) % divisor as int < TWO64
  {
  }

  /** Conversion to a signed integer keeps the bits. */
  function Signed(w: Word): Int {
    if w < 0x8000_0000_0000_0000 then w else w as int - TWO64
  }

  /** The division inside RoundMulDiv does not trap. */
  predicate Divides(a: Int, b: Int, divisor: Int) {
    a > 0 && b > 0 && divisor > 0 ==> Mul64(a, b).0 < divisor
  }

  function RoundMulDiv(a: Int, b: Int, divisor: Int): Int
    requires Divides(a, b, divisor)
  {
    if a <= 0 || b <= 0 || divisor <= 0 then 0
    else
      var (hi, lo) := Mul64(a, b);
      var (quotient, remainder) := Div64(hi, lo, divisor);
      var threshold := divisor / 2 + divisor % 2;
      Signed(if remainder < threshold then quotient
             else if quotient as int == TWO64 - 1 then 0
             else quotient as int + 1)
  }

  /** n/d rounded to the nearest integer, halves up. */
  ghost predicate HalfUp(r: int, n: int, d: int)
    requires d > 0
  {
    2 * n - d < 2 * (r * d) <= 2 * n + d
  }

  /** The division traps exactly when the quotient would not fit. */
  lemma TrapsExactly(a: Int, b: Int, divisor: Int)
    requires a > 0 && b > 0 && divisor > 0
    ensures Divides(a, b, divisor) <==> a as int * b as int < divisor as int * TWO64
  {
  }

  /** A factor that is no greater than the divisor is enough. */
  lemma NeverTraps(a: Int, b: Int, divisor: Int)
    requires a <= divisor || b <= divisor
    ensures Divides(a, b, divisor)
  {
    if a > 0 && b > 0 && divisor > 0 {
      TrapsExactly(a, b, divisor);
      hide Divides;
      var (less, more) := if a <= divisor then (a as int, b as int) else (b as int, a as int);
      Scale(less, divisor as int, more);
      Scale(more, TWO64 - 1, divisor as int);
    }
  }

  /** The result is the exact quotient, rounded half up, whenever that fits. */
  lemma RoundsHalfUp(a: Int, b: Int, divisor: Int)
    requires a >= 0 && b >= 0 && divisor > 0 && Divides(a, b, divisor)
    requires 2 * (a as int * b as int) + divisor as int < 2 * (TWO63 * divisor as int)
    ensures HalfUp(RoundMulDiv(a, b, divisor), a as int * b as int, divisor)
  {
    if a > 0 && b > 0 {
      var n, d := a as int * b as int, divisor as int;
      ProductFits(a, b);
      Quotient(n, TWO64);
      RoundedQuotient(n, d);
      hide HalfUp;
    }
  }

  lemma RoundedQuotient(n: int, d: int)
    requires n >= 0 && d > 0 && 2 * n + d < 2 * (TWO63 * d)
    ensures var r := if n % d < d / 2 + d % 2 then n / d else n / d + 1;
      0 <= r < TWO63 && HalfUp(r, n, d)
  {
    Quotient(n, d);
    var q := n / d;
    assert (q + 1) * d == q * d + d;
    if q >= TWO63 { Scale(TWO63, q, d); }
    if q + 1 >= TWO63 { Scale(TWO63, q + 1, d); }
  }

  /** Rounding is monotone, and exact multiples are not changed. */
  lemma HalfUpMonotone(r: int, n: int, s: int, m: int, d: int)
    requires d > 0 && HalfUp(r, n, d) && HalfUp(s, m, d)
    ensures n <= m ==> r <= s
    ensures n == m ==> r == s
  {
    if r > s {
      Scale(s + 1, r, d);
      assert (s + 1) * d == s * d + d;
    }
    if s > r {
      Scale(r + 1, s, d);
      assert (r + 1) * d == r * d + d;
    }
  }

  // ------------------------------------------------------------------- scrollbar

  datatype Scrollbar = Scrollbar(visible: bool, trackHeight: Int, thumbTop: Int, thumbLength: Int)

  function Min(a: Int, b: Int): Int { if a < b then a else b }

  function Max(a: Int, b: Int): Int { if a < b then b else a }

  const HIDDEN := Scrollbar(false, 0, 0, 0)

  function ThumbLength(contentLength: Int, visibleRows: Int): Int
    requires 0 < visibleRows < contentLength
  {
    NeverTraps(visibleRows, visibleRows, contentLength);
    Min(visibleRows, Max(1, RoundMulDiv(visibleRows, visibleRows, contentLength)))
  }

  function NewScrollbar(contentLength: Int, visibleRows: Int, offset: Int): Scrollbar {
    if contentLength <= visibleRows || visibleRows <= 0 then HIDDEN
    else
      var trackHeight := visibleRows;
      var maximum: Int := contentLength - visibleRows;
      var at := Min(Max(0, offset), maximum);
      var thumbLength := ThumbLength(contentLength, visibleRows);
      var room: Int := trackHeight - thumbLength;
      NeverTraps(room, at, maximum);
      var thumbTop := RoundMulDiv(room, at, maximum);
      Scrollbar(true, trackHeight, Min(Max(0, thumbTop), room), thumbLength)
  }

  /** n/d rounded half up, or 1 where that is less. */
  ghost predicate IsShare(l: int, n: int, d: int)
    requires d > 0
  {
    exists r :: HalfUp(r, n, d) && l == if r < 1 then 1 else r
  }

  /** The thumb's length is the rounded share of the content that is visible, at least one
      row; with two rows or more it never fills the track. */
  lemma ThumbIsProportional(contentLength: Int, visibleRows: Int)
    requires 0 < visibleRows < contentLength
    ensures var l := ThumbLength(contentLength, visibleRows);
      && 1 <= l <= visibleRows && (l == visibleRows <==> visibleRows == 1)
      && IsShare(l, visibleRows as int * visibleRows as int, contentLength)
  {
    var v, c := visibleRows as int, contentLength as int;
    NeverTraps(visibleRows, visibleRows, contentLength);
    ShareFits(v, c);
    RoundsHalfUp(visibleRows, visibleRows, contentLength);
    ShareIsSmaller(v, c, RoundMulDiv(visibleRows, visibleRows, contentLength));
  }

  lemma ShareFits(v: int, c: int)
    requires 0 < v < c < TWO63
    ensures 2 * (v * v) + c < 2 * (TWO63 * c)
  {
    Scale(v, c, v);
    Scale(v, TWO63 - 1, c);
    assert (TWO63 - 1) * c == TWO63 * c - c;
    assert c * v == v * c;
  }

  /** Of two rows or more, a strict share rounds to less than the whole. */
  lemma ShareIsSmaller(v: int, c: int, r: int)
    requires 0 < v < c && HalfUp(r, v * v, c)
    ensures v > 1 ==> r < v
    ensures v == 1 ==> r <= 1
  {
    if v == 1 && r > 1 { Scale(2, r, c); }
    if r >= v {
      Scale(v, r, c);
      Scale(v + 1, c, 2 * v - 1);
      Expand(v, c);
    }
  }

  lemma Expand(v: int, c: int)
    ensures (v + 1) * (2 * v - 1) == 2 * (v * v) + v - 1
    ensures c * (2 * v - 1) == 2 * (v * c) - c
  {
  }

  /** Where the thumb stands before clamping, which changes nothing. */
  lemma ThumbStands(contentLength: Int, visibleRows: Int, offset: Int)
    requires 0 < visibleRows < contentLength && 0 <= offset <= contentLength - visibleRows
    ensures var g := NewScrollbar(contentLength, visibleRows, offset);
      && 0 <= g.thumbTop && g.thumbTop + g.thumbLength <= g.trackHeight
      && HalfUp(g.thumbTop, (visibleRows - g.thumbLength) as int * offset as int, contentLength - visibleRows)
  {
    ThumbIsProportional(contentLength, visibleRows);
    hide ThumbLength;
    var room: Int := visibleRows - ThumbLength(contentLength, visibleRows);
    var maximum: Int := contentLength - visibleRows;
    NeverTraps(room, offset, maximum);
    PositionFits(room, offset, maximum);
    RoundsHalfUp(room, offset, maximum);
    PositionInRoom(room, offset, maximum, RoundMulDiv(room, offset, maximum));
    hide RoundMulDiv, HalfUp;
  }

  lemma PositionFits(k: int, offset: int, d: int)
    requires 0 <= k < TWO63 - 1 && 0 <= offset <= d && d > 0
    ensures 0 <= k * offset && 2 * (k * offset) + d < 2 * (TWO63 * d)
  {
    Scale(0, offset, k);
    Scale(offset, d, k);
    Scale(k, TWO63 - 2, d);
    assert (TWO63 - 2) * d == TWO63 * d - 2 * d;
  }

  lemma PositionInRoom(k: int, offset: int, d: int, r: int)
    requires 0 <= k && 0 <= offset <= d && d > 0 && HalfUp(r, k * offset, d)
    ensures 0 <= r <= k
  {
    Scale(0, offset, k);
    Scale(offset, d, k);
    HalfUpMonotone(r, k * offset, k, k * d, d);
    HalfUpMonotone(0, 0, r, k * offset, d);
  }

  /** The thumb stays in its track, starts at the top, ends flush with the bottom, and never
      moves against the scrolling. */
  lemma ThumbFollows(contentLength: Int, visibleRows: Int, offset: Int, later: Int)
    requires 0 < visibleRows < contentLength && offset <= later
    ensures
      var g := NewScrollbar(contentLength, visibleRows, offset);
      var h := NewScrollbar(contentLength, visibleRows, later);
      && g.visible && 0 <= g.thumbTop && 1 <= g.thumbLength
      && g.thumbTop + g.thumbLength <= g.trackHeight == visibleRows
      && h.thumbLength == g.thumbLength && g.thumbTop <= h.thumbTop
      && (offset <= 0 ==> g.thumbTop == 0)
      && (offset >= contentLength - visibleRows ==> g.thumbTop + g.thumbLength == g.trackHeight)
  {
    var maximum: Int := contentLength - visibleRows;
    var a, b := Min(Max(0, offset), maximum), Min(Max(0, later), maximum);
    ThumbIsProportional(contentLength, visibleRows);
    ThumbStands(contentLength, visibleRows, a);
    ThumbStands(contentLength, visibleRows, b);
    var g, h := NewScrollbar(contentLength, visibleRows, a), NewScrollbar(contentLength, visibleRows, b);
    assert g == NewScrollbar(contentLength, visibleRows, offset) &&
      h == NewScrollbar(contentLength, visibleRows, later);
    var k, d := visibleRows as int - g.thumbLength as int, maximum as int;
    Scale(a as int, b as int, k);
    HalfUpMonotone(g.thumbTop, k * a as int, h.thumbTop, k * b as int, d);
    assert HalfUp(0, 0, d) && HalfUp(k, k * d, d);
    if a == 0 { HalfUpMonotone(g.thumbTop, 0, 0, 0, d); }
    if a == maximum { HalfUpMonotone(g.thumbTop, k * d, k, k * d, d); }
  }

  // -------------------------------------------------------------------- projection

  datatype Projection = Projection(
    lines: seq<string>, renderOffset: Int, visibleRows: Int, hasPrevious: bool, hasNext: bool, activeLine: Int,
    scrollbar: Scrollbar)

  function MaximumOffset(contentLength: Int, rows: Int): Int {
    if contentLength <= rows || rows <= 0 then 0 else contentLength - rows
  }

  /** The first line shown. */
  function Start(length: Int, rows: Int, offset: Int, activeLine: Int): Int
    requires 0 < length && 0 < rows
  {
    var maximum := MaximumOffset(length, rows);
    var start := Min(Max(0, offset), maximum);
    if activeLine < 0 || activeLine >= length then start
    else
      var moved: Int :=
        if activeLine < start then activeLine
        else if activeLine as int >= start as int + rows as int then activeLine - rows + 1
        else start;
      Min(Max(0, moved), maximum)
  }

  /** Lines wider than the window are cut elsewhere; here they are shown as they are. */
  function Project(content: seq<string>, offset: Int, rows: Int, width: Int, activeLine: Int): Projection
    requires |content| < TWO63
  {
    var active: Int := if activeLine < 0 || activeLine >= |content| then NO_ACTIVE_LINE else activeLine;
    if content == [] || rows <= 0 || width <= 0 then Projection([], 0, 0, false, false, activeLine, HIDDEN)
    else
      var start := Start(|content|, rows, offset, active);
      var end: Int := if |content| < start as int + rows as int then |content| else start + rows;
      Projection(content[start..end], start, end - start, start > 0, end < |content|, active,
                 NewScrollbar(|content|, rows, start))
  }

  function Distance(a: int, b: int): nat {
    if a < b then b - a else a - b
  }

  /** A window that shows as much as it can. */
  ghost predicate Window(length: int, rows: int, start: int) {
    0 <= start && (start == 0 || start + rows <= length)
  }

  /** The window is full, shows the active line, and of all such windows is the one nearest
      to where the user scrolled. */
  lemma ProjectionIsNearest(content: seq<string>, offset: Int, rows: Int, width: Int, activeLine: Int)
    requires 0 < |content| < TWO63 && rows > 0 && width > 0
    ensures var p := Project(content, offset, rows, width, activeLine);
      var start := p.renderOffset as int;
      var valid := 0 <= activeLine < |content|;
      && Window(|content|, rows, start)
      && |p.lines| == p.visibleRows == (if |content| < rows as int then |content| else rows)
      && (forall i | 0 <= i < |p.lines| :: p.lines[i] == content[start + i])
      && (valid ==> start <= activeLine < start + p.visibleRows)
      && p.activeLine == (if valid then activeLine else NO_ACTIVE_LINE)
      && (p.hasPrevious <==> start > 0) && (p.hasNext <==> start + p.visibleRows < |content|)
      && (p.scrollbar.visible <==> |content| > rows as int)
      && p.scrollbar == NewScrollbar(|content|, rows, p.renderOffset)
      && forall s | Window(|content|, rows, s) && (valid ==> s <= activeLine < s + rows) ::
           Distance(start, offset) <= Distance(s, offset)
  {
    hide Start, ThumbLength, RoundMulDiv;
    StartIsNearest(|content|, rows, offset, if 0 <= activeLine < |content| then activeLine else NO_ACTIVE_LINE);
  }

  lemma StartIsNearest(length: Int, rows: Int, offset: Int, activeLine: Int)
    requires 0 < length && 0 < rows
    ensures var start := Start(length, rows, offset, activeLine);
      && Window(length, rows, start) && 0 <= start < length
      && (0 <= activeLine < length ==> start <= activeLine < start as int + rows as int)
      && forall s | Window(length, rows, s) && (0 <= activeLine < length ==> s <= activeLine < s + rows as int) ::
           Distance(start, offset) <= Distance(s, offset)
  {
  }

  /** Projecting again from where one ended up changes nothing. */
  lemma ProjectionSettles(content: seq<string>, offset: Int, rows: Int, width: Int, activeLine: Int)
    requires |content| < TWO63
    ensures var p := Project(content, offset, rows, width, activeLine);
      p.renderOffset >= 0 && Project(content, p.renderOffset, rows, width, activeLine) == p
  {
    hide Start, NewScrollbar;
    if content != [] && rows > 0 {
      StartSettles(|content|, rows, offset, if 0 <= activeLine < |content| then activeLine else NO_ACTIVE_LINE);
    }
  }

  lemma StartSettles(length: Int, rows: Int, offset: Int, activeLine: Int)
    requires 0 < length && 0 < rows
    ensures var start := Start(length, rows, offset, activeLine);
      0 <= start < length && Start(length, rows, start, activeLine) == start
  {
  }
}

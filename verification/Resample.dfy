// The icon's box-filter resampler and its placement in the middle of a canvas. See src/lib.rs.
module Resample {
  import opened Bytes

  // MARK: Windows

  /** The source columns (or rows) that make up column `d` of `dn`: from Low up to High. */
  function Low(d: nat, sn: nat, dn: nat): nat
    requires dn > 0
  {
    d * sn / dn
  }

  function High(d: nat, sn: nat, dn: nat): nat
    requires dn > 0
  {
    Min(Max(Low(d + 1, sn, dn), Low(d, sn, dn) + 1), sn)
  }

  function Max(a: nat, b: nat): nat {
    if a < b then b else a
  }

  function Min(a: nat, b: nat): nat {
    if a < b then a else b
  }

  lemma Times(a: nat, b: nat, n: nat)
    requires a <= b
    ensures a * n <= b * n
  {
  }

  lemma Euclid(a: nat, n: nat)
    requires n > 0
    ensures a / n * n <= a < (a / n + 1) * n
  {
  }

  /** Division by `n` and multiplication by it are adjoint. */
  lemma Quotient(a: nat, n: nat, q: nat)
    requires n > 0
    ensures q * n <= a <==> q <= a / n
  {
    Euclid(a, n);
    if q <= a / n {
      Times(q, a / n, n);
    } else {
      Times(a / n + 1, q, n);
    }
  }

  lemma NextLow(d: nat, sn: nat, dn: nat)
    requires dn > 0
    ensures dn <= sn ==> Low(d + 1, sn, dn) > Low(d, sn, dn)
    ensures sn <= dn ==> Low(d, sn, dn) <= Low(d + 1, sn, dn) <= Low(d, sn, dn) + 1
  {
    var a, q := d * sn, Low(d, sn, dn);
    var b := a + sn;
    assert (d + 1) * sn == b;
    Euclid(a, dn);
    var up := (q + 1) * dn;
    assert up == q * dn + dn && (q + 2) * dn == up + dn;
    Quotient(b, dn, q);
    Quotient(b, dn, q + 1);
    Quotient(b, dn, q + 2);
  }

  lemma LowEnds(sn: nat, dn: nat)
    requires dn > 0
    ensures Low(0, sn, dn) == 0 && Low(dn, sn, dn) == sn
  {
    var whole := dn * sn;
    assert whole == sn * dn && (sn + 1) * dn == whole + dn;
    Quotient(whole, dn, sn);
    Quotient(whole, dn, sn + 1);
  }

  lemma LowIsInside(d: nat, sn: nat, dn: nat)
    requires d < dn && sn > 0
    ensures Low(d, sn, dn) < sn
  {
    Quotient(d * sn, dn, sn);
    Times(d + 1, dn, sn);
    assert (d + 1) * sn == d * sn + sn;
  }

  lemma LowOfEqualSizes(d: nat, n: nat)
    requires n > 0
    ensures Low(d, n, n) == d
  {
    Quotient(d * n, n, d);
    Quotient(d * n, n, d + 1);
    assert (d + 1) * n == d * n + n;
  }

  /**
   * Shrinking, the windows tile the source: each starts where the one before ends. Enlarging, each
   * is a single pixel. Either way none is empty and none leaves the source.
   */
  lemma WindowsTile(d: nat, sn: nat, dn: nat)
    requires d < dn && sn > 0
    ensures Low(d, sn, dn) < High(d, sn, dn) <= sn
    ensures Low(0, sn, dn) == 0
    ensures dn <= sn ==> High(d, sn, dn) == if d + 1 == dn then sn else Low(d + 1, sn, dn)
    ensures dn >= sn ==> High(d, sn, dn) == Low(d, sn, dn) + 1
    ensures dn == sn ==> Low(d, sn, dn) == d
  {
    hide Low;
    NextLow(d, sn, dn);
    LowEnds(sn, dn);
    LowIsInside(d, sn, dn);
    if d + 1 < dn {
      LowIsInside(d + 1, sn, dn);
    }
    LowOfEqualSizes(d, dn);
  }

  /** Shrinking, every source column is in some window, and in no other. */
  lemma EachColumnOnce(i: nat, sn: nat, dn: nat) returns (owner: nat)
    requires i < sn && 0 < dn <= sn
    ensures owner < dn && Low(owner, sn, dn) <= i < High(owner, sn, dn)
    ensures forall d :: 0 <= d < dn && Low(d, sn, dn) <= i < High(d, sn, dn) ==> d == owner
  {
    WindowsTile(dn - 1, sn, dn);
    owner := OwnerAmong(i, sn, dn, dn);
  }

  lemma {:induction false} OwnerAmong(i: nat, sn: nat, dn: nat, n: nat) returns (owner: nat)
    requires 0 < n <= dn <= sn && i < High(n - 1, sn, dn)
    ensures owner < n && Low(owner, sn, dn) <= i < High(owner, sn, dn)
    ensures forall d :: 0 <= d < n && Low(d, sn, dn) <= i < High(d, sn, dn) ==> d == owner
    decreases n
  {
    hide Low, High;
    WindowsTile(n - 1, sn, dn);
    if n > 1 {
      WindowsTile(n - 2, sn, dn);
    }
    if i < Low(n - 1, sn, dn) {
      owner := OwnerAmong(i, sn, dn, n - 1);
    } else {
      owner := n - 1;
      OthersEndBefore(n - 1, sn, dn);
    }
  }

  lemma OthersEndBefore(e: nat, sn: nat, dn: nat)
    requires e < dn <= sn
    ensures forall d :: 0 <= d < e ==> High(d, sn, dn) <= Low(e, sn, dn)
  {
    hide Low, High;
    forall d | 0 <= d < e ensures High(d, sn, dn) <= Low(e, sn, dn) {
      EndsBefore(d, e, sn, dn);
    }
  }

  lemma {:induction false} EndsBefore(d: nat, e: nat, sn: nat, dn: nat)
    requires d < e < dn <= sn
    ensures High(d, sn, dn) <= Low(e, sn, dn)
    decreases e
  {
    hide Low, High;
    WindowsTile(e - 1, sn, dn);
    if d < e - 1 {
      EndsBefore(d, e - 1, sn, dn);
    }
  }

  // MARK: Sums

  datatype Picture = Picture(pixels: Bytes, width: nat, height: nat)
  {
    predicate Valid() {
      width > 0 && height > 0 && |pixels| == width * height * 4
    }

    function At(x: nat, y: nat, c: nat): Byte
      requires Valid() && x < width && y < height && c < 4
    {
      InRange(x, y, width, height);
      pixels[(y * width + x) * 4 + c]
    }

    /** What a pixel adds to a sum: its alpha, or a colour weighted by it. */
    function Weight(x: nat, y: nat, c: nat): nat
      requires Valid() && x < width && y < height && c < 4
    {
      if c == 3 then At(x, y, 3) else At(x, y, c) * At(x, y, 3)
    }

    function RowSum(y: nat, x0: nat, x1: nat, c: nat): nat
      requires Valid() && y < height && x1 <= width && c < 4
      decreases x1
    {
      if x1 <= x0 then 0 else RowSum(y, x0, x1 - 1, c) + Weight(x1 - 1, y, c)
    }

    function Sum(x0: nat, x1: nat, y0: nat, y1: nat, c: nat): nat
      requires Valid() && x1 <= width && y1 <= height && c < 4
      decreases y1
    {
      if y1 <= y0 then 0 else Sum(x0, x1, y0, y1 - 1, c) + RowSum(y1 - 1, x0, x1, c)
    }
  }

  lemma InRange(x: nat, y: nat, width: nat, height: nat)
    requires x < width && y < height
    ensures y * width + x < width * height
  {
    assert (y + 1) * width <= height * width;
  }

  const U32 := 0x1_0000_0000

  function Wrapped(n: nat): nat {
    n % U32
  }

  lemma WrappedAdd(a: nat, b: nat)
    ensures Wrapped(Wrapped(a) + b) == Wrapped(a + b)
  {
  }

  /** A channel from the 32-bit sums of a window: the mean alpha, or the mean colour weighted by it. */
  function Mean(sum: nat, alpha: nat, count: nat, c: nat): Byte
    requires count != 0
  {
    if c == 3 then alpha / count % 256 else if alpha == 0 then 0 else sum / alpha % 256
  }

  /** One channel of one pixel of the result, in the 32-bit arithmetic of the source. */
  function Channel(p: Picture, dw: nat, dh: nat, dx: nat, dy: nat, c: nat): Byte
    requires p.Valid() && dx < dw && dy < dh && c < 4 && Countable(p, dw, dh)
  {
    Mean(Wrapped(WindowSum(p, dw, dh, dx, dy, c)), Wrapped(WindowSum(p, dw, dh, dx, dy, 3)),
      Wrapped(Area(p, dw, dh, dx, dy)), c)
  }

  function WindowSum(p: Picture, dw: nat, dh: nat, dx: nat, dy: nat, c: nat): nat
    requires p.Valid() && dx < dw && dy < dh && c < 4
  {
    p.Sum(Low(dx, p.width, dw), High(dx, p.width, dw), Low(dy, p.height, dh), High(dy, p.height, dh), c)
  }

  function Area(p: Picture, dw: nat, dh: nat, dx: nat, dy: nat): nat
    requires p.Valid() && dx < dw && dy < dh
  {
    WindowsTile(dx, p.width, dw);
    WindowsTile(dy, p.height, dh);
    Size(Low(dx, p.width, dw), High(dx, p.width, dw), Low(dy, p.height, dh), High(dy, p.height, dh))
  }

  function Size(x0: nat, x1: nat, y0: nat, y1: nat): nat
    requires x0 <= x1 && y0 <= y1
  {
    (x1 - x0) * (y1 - y0)
  }

  /** No window's size is a multiple of 2^32, by which the source would divide as by zero. */
  predicate Countable(p: Picture, dw: nat, dh: nat)
    requires p.Valid()
  {
    forall dx, dy :: 0 <= dx < dw && 0 <= dy < dh ==> Wrapped(Area(p, dw, dh, dx, dy)) != 0
  }

  // MARK: The resampler

  /** Where row `y` of a picture of width `w` starts in its bytes. */
  function RowStart(y: nat, w: nat): nat {
    y * w * 4
  }

  /** Byte `j` of the result, which lists its pixels row by row. */
  function ByteAt(p: Picture, dw: nat, dh: nat, j: nat): Byte
    requires p.Valid() && Countable(p, dw, dh) && j < RowStart(dh, dw)
  {
    PositionIsInRange(j / 4, dw, dh);
    Channel(p, dw, dh, j / 4 % dw, j / 4 / dw, j % 4)
  }

  method ResampleRgba(p: Picture, dw: nat, dh: nat) returns (out: array<Byte>)
    requires p.Valid() && Countable(p, dw, dh)
    ensures out.Length == RowStart(dh, dw)
    ensures forall j :: 0 <= j < out.Length ==> out[j] == ByteAt(p, dw, dh, j)
  {
    hide *;
    out := new Byte[RowStart(dh, dw)](_ => 0);
    RowsFollow(0, dw, dh);
    for dy := 0 to dh
      invariant RowStart(dy, dw) <= out.Length
      invariant forall j :: 0 <= j < RowStart(dy, dw) ==> out[j] == ByteAt(p, dw, dh, j)
    {
      RowsFollow(dy, dw, dh);
      FillRow(p, dw, dh, dy, out, RowStart(dy, dw));
    }
  }

  method FillRow(p: Picture, dw: nat, dh: nat, dy: nat, out: array<Byte>, base: nat)
    requires p.Valid() && Countable(p, dw, dh) && dy < dh
    requires out.Length == RowStart(dh, dw) && base == RowStart(dy, dw) && base + dw * 4 <= out.Length
    requires forall j :: 0 <= j < base ==> out[j] == ByteAt(p, dw, dh, j)
    modifies out
    ensures forall j :: 0 <= j < base + dw * 4 ==> out[j] == ByteAt(p, dw, dh, j)
  {
    hide *;
    for dx := 0 to dw
      invariant forall j :: 0 <= j < base + dx * 4 ==> out[j] == ByteAt(p, dw, dh, j)
    {
      var pixel := Average(p, dw, dh, dx, dy);
      ByteOf(p, dw, dh, dx, dy, 0);
      ByteOf(p, dw, dh, dx, dy, 1);
      ByteOf(p, dw, dh, dx, dy, 2);
      ByteOf(p, dw, dh, dx, dy, 3);
      var o := base + dx * 4;
      for c := 0 to 4
        invariant forall j :: 0 <= j < o + c ==> out[j] == ByteAt(p, dw, dh, j)
      {
        out[o + c] := pixel[c];
      }
    }
  }

  lemma RowsFollow(dy: nat, dw: nat, dh: nat)
    ensures RowStart(0, dw) == 0 && RowStart(dy + 1, dw) == RowStart(dy, dw) + dw * 4
    ensures dy < dh ==> RowStart(dy + 1, dw) <= RowStart(dh, dw)
  {
    if dy < dh {
      Times(dy + 1, dh, dw);
    }
  }

  lemma ByteOf(p: Picture, dw: nat, dh: nat, dx: nat, dy: nat, c: nat)
    requires p.Valid() && Countable(p, dw, dh) && dx < dw && dy < dh && c < 4
    ensures RowStart(dy, dw) + dx * 4 + c < RowStart(dh, dw)
    ensures ByteAt(p, dw, dh, RowStart(dy, dw) + dx * 4 + c) == Channel(p, dw, dh, dx, dy, c)
  {
    hide Channel, Countable;
    var k := dy * dw + dx;
    InRange(dx, dy, dw, dh);
    PositionOf(dx, dy, dw);
    var j := 4 * k + c;
    assert RowStart(dy, dw) + dx * 4 + c == j && j / 4 == k && j % 4 == c;
  }

  lemma PositionOf(dx: nat, dy: nat, dw: nat)
    requires dx < dw
    ensures (dy * dw + dx) / dw == dy && (dy * dw + dx) % dw == dx
  {
    var k := dy * dw + dx;
    Quotient(k, dw, dy);
    Quotient(k, dw, dy + 1);
    assert (dy + 1) * dw == dy * dw + dw;
    assert k == k / dw * dw + k % dw;
  }

  lemma PositionIsInRange(k: nat, dw: nat, dh: nat)
    requires k < dw * dh
    ensures dw > 0 && k % dw < dw && k / dw < dh
  {
    Quotient(k, dw, dh);
    assert dh * dw == dw * dh;
  }

  /** The four running sums, after the rows above `y` and the pixels of row `y` before `x`. */
  function Sums(p: Picture, x0: nat, x1: nat, y0: nat, y: nat, x: nat): (sums: seq<nat>)
    requires p.Valid() && x <= x1 <= p.width && y <= p.height && (x > x0 ==> y < p.height)
    ensures |sums| == 4
  {
    [Running(p, x0, x1, y0, y, x, 0), Running(p, x0, x1, y0, y, x, 1), Running(p, x0, x1, y0, y, x, 2),
      Running(p, x0, x1, y0, y, x, 3)]
  }

  /** One of the running sums. */
  function Running(p: Picture, x0: nat, x1: nat, y0: nat, y: nat, x: nat, c: nat): nat
    requires p.Valid() && x <= x1 <= p.width && y <= p.height && (x > x0 ==> y < p.height) && c < 4
  {
    Wrapped(p.Sum(x0, x1, y0, y, c) + if x > x0 then p.RowSum(y, x0, x, c) else 0)
  }

  lemma AddChannel(p: Picture, x0: nat, x1: nat, y0: nat, y: nat, x: nat, c: nat)
    requires p.Valid() && x0 <= x < x1 <= p.width && y < p.height && c < 4
    ensures Running(p, x0, x1, y0, y, x + 1, c) == Wrapped(Running(p, x0, x1, y0, y, x, c) + p.Weight(x, y, c))
  {
    hide Picture.Weight, Picture.Sum;
    WrappedAdd(p.Sum(x0, x1, y0, y, c) + p.RowSum(y, x0, x, c), p.Weight(x, y, c));
  }

  lemma AddPixel(p: Picture, x0: nat, x1: nat, y0: nat, y: nat, x: nat)
    requires p.Valid() && x0 <= x < x1 <= p.width && y < p.height
    ensures Sums(p, x0, x1, y0, y, x + 1) ==
      var s := Sums(p, x0, x1, y0, y, x);
      [Wrapped(s[0] + p.Weight(x, y, 0)), Wrapped(s[1] + p.Weight(x, y, 1)), Wrapped(s[2] + p.Weight(x, y, 2)),
        Wrapped(s[3] + p.Weight(x, y, 3))]
  {
    hide Picture.Weight, Picture.Sum, Running, Wrapped;
    AddChannel(p, x0, x1, y0, y, x, 0);
    AddChannel(p, x0, x1, y0, y, x, 1);
    AddChannel(p, x0, x1, y0, y, x, 2);
    AddChannel(p, x0, x1, y0, y, x, 3);
  }

  lemma EndRow(p: Picture, x0: nat, x1: nat, y0: nat, y: nat)
    requires p.Valid() && x0 < x1 <= p.width && y0 <= y < p.height
    ensures Sums(p, x0, x1, y0, y, x1) == Sums(p, x0, x1, y0, y + 1, x0)
    ensures Sums(p, x0, x1, y0, y0, x0) == [0, 0, 0, 0]
  {
  }

  method SumWindow(p: Picture, x0: nat, x1: nat, y0: nat, y1: nat) returns (sum: array<nat>)
    requires p.Valid() && x0 < x1 <= p.width && y0 < y1 <= p.height
    ensures fresh(sum) && sum[..] == Sums(p, x0, x1, y0, y1, x0)
  {
    hide *;
    sum := new nat[4](_ => 0);
    EndRow(p, x0, x1, y0, y0);
    assert sum[..] == [0, 0, 0, 0];
    for y := y0 to y1
      invariant sum[..] == Sums(p, x0, x1, y0, y, x0)
    {
      for x := x0 to x1
        invariant sum[..] == Sums(p, x0, x1, y0, y, x)
      {
        AddPixel(p, x0, x1, y0, y, x);
        sum[0] := Wrapped(sum[0] + p.Weight(x, y, 0));
        sum[1] := Wrapped(sum[1] + p.Weight(x, y, 1));
        sum[2] := Wrapped(sum[2] + p.Weight(x, y, 2));
        sum[3] := Wrapped(sum[3] + p.Weight(x, y, 3));
      }
      EndRow(p, x0, x1, y0, y);
    }
  }

  /** The four channels of one window. */
  method Average(p: Picture, dw: nat, dh: nat, dx: nat, dy: nat) returns (pixel: Bytes)
    requires p.Valid() && dx < dw && dy < dh && Countable(p, dw, dh)
    ensures |pixel| == 4 && forall c :: 0 <= c < 4 ==> pixel[c] == Channel(p, dw, dh, dx, dy, c)
  {
    WindowsTile(dx, p.width, dw);
    WindowsTile(dy, p.height, dh);
    AreaCounts(p, dw, dh, dx, dy);
    AreaIsSize(p, dw, dh, dx, dy);
    hide *;
    var x0, x1 := Low(dx, p.width, dw), High(dx, p.width, dw);
    var y0, y1 := Low(dy, p.height, dh), High(dy, p.height, dh);
    var sum := SumWindow(p, x0, x1, y0, y1);
    var sums := sum[..];
    var count := Wrapped(Size(x0, x1, y0, y1));
    pixel := [];
    for c := 0 to 4
      invariant |pixel| == c && forall e :: 0 <= e < c ==> pixel[e] == Channel(p, dw, dh, dx, dy, e)
    {
      SumsOf(p, x0, x1, y0, y1, c);
      SumsOf(p, x0, x1, y0, y1, 3);
      ChannelIsMean(p, dw, dh, dx, dy, c);
      pixel := pixel + [Mean(sums[c], sums[3], count, c)];
    }
  }

  lemma SumsOf(p: Picture, x0: nat, x1: nat, y0: nat, y: nat, c: nat)
    requires p.Valid() && x0 <= x1 <= p.width && y <= p.height && c < 4
    ensures Sums(p, x0, x1, y0, y, x0)[c] == Wrapped(p.Sum(x0, x1, y0, y, c))
  {
    hide Wrapped, Picture.Sum, Picture.RowSum, Picture.Valid;
  }

  lemma ChannelIsMean(p: Picture, dw: nat, dh: nat, dx: nat, dy: nat, c: nat)
    requires p.Valid() && dx < dw && dy < dh && c < 4 && Countable(p, dw, dh)
    requires High(dx, p.width, dw) <= p.width && High(dy, p.height, dh) <= p.height
    ensures Wrapped(Area(p, dw, dh, dx, dy)) != 0
    ensures
      var x0, x1, y0, y1 := Low(dx, p.width, dw), High(dx, p.width, dw), Low(dy, p.height, dh), High(dy, p.height, dh);
      Channel(p, dw, dh, dx, dy, c)
        == Mean(Wrapped(p.Sum(x0, x1, y0, y1, c)), Wrapped(p.Sum(x0, x1, y0, y1, 3)), Wrapped(Area(p, dw, dh, dx, dy)),
          c)
  {
    hide Mean, Wrapped, Area, Low, High, Picture.Sum, Picture.Valid;
  }

  lemma AreaCounts(p: Picture, dw: nat, dh: nat, dx: nat, dy: nat)
    requires p.Valid() && dx < dw && dy < dh && Countable(p, dw, dh)
    ensures Wrapped(Area(p, dw, dh, dx, dy)) != 0
  {
    hide Low, High, Wrapped, Area, Picture.Valid;
  }

  lemma AreaIsSize(p: Picture, dw: nat, dh: nat, dx: nat, dy: nat)
    requires p.Valid() && dx < dw && dy < dh
    requires Low(dx, p.width, dw) <= High(dx, p.width, dw) && Low(dy, p.height, dh) <= High(dy, p.height, dh)
    ensures Area(p, dw, dh, dx, dy)
      == Size(Low(dx, p.width, dw), High(dx, p.width, dw), Low(dy, p.height, dh), High(dy, p.height, dh))
  {
    hide Low, High, Size, Picture.Valid;
  }

  // MARK: Every source pixel counts once

  lemma {:induction false} RowsSplit(p: Picture, y: nat, x0: nat, x1: nat, x2: nat, c: nat)
    requires p.Valid() && y < p.height && x0 <= x1 <= x2 <= p.width && c < 4
    ensures p.RowSum(y, x0, x1, c) + p.RowSum(y, x1, x2, c) == p.RowSum(y, x0, x2, c)
    decreases x2
  {
    hide Picture.Weight, Picture.Valid;
    if x1 < x2 {
      RowsSplit(p, y, x0, x1, x2 - 1, c);
    }
  }

  lemma {:induction false} SumSplitsAcross(p: Picture, x0: nat, x1: nat, x2: nat, y0: nat, y1: nat, c: nat)
    requires p.Valid() && x0 <= x1 <= x2 <= p.width && y1 <= p.height && c < 4
    ensures p.Sum(x0, x1, y0, y1, c) + p.Sum(x1, x2, y0, y1, c) == p.Sum(x0, x2, y0, y1, c)
    decreases y1
  {
    hide Picture.RowSum, Picture.Valid;
    if y0 < y1 {
      SumSplitsAcross(p, x0, x1, x2, y0, y1 - 1, c);
      RowsSplit(p, y1 - 1, x0, x1, x2, c);
    }
  }

  lemma {:induction false} SumSplitsDown(p: Picture, x0: nat, x1: nat, y0: nat, y1: nat, y2: nat, c: nat)
    requires p.Valid() && x1 <= p.width && y0 <= y1 <= y2 <= p.height && c < 4
    ensures p.Sum(x0, x1, y0, y1, c) + p.Sum(x0, x1, y1, y2, c) == p.Sum(x0, x1, y0, y2, c)
    decreases y2
  {
    hide Picture.RowSum, Picture.Valid;
    if y1 < y2 {
      SumSplitsDown(p, x0, x1, y0, y1, y2 - 1, c);
    }
  }

  /** The window sums of the first `n` columns of one row of windows. */
  function AcrossSum(p: Picture, dw: nat, dh: nat, n: nat, dy: nat, c: nat): nat
    requires p.Valid() && n <= dw && dy < dh && c < 4
  {
    if n == 0 then 0 else AcrossSum(p, dw, dh, n - 1, dy, c) + WindowSum(p, dw, dh, n - 1, dy, c)
  }

  /** The window sums of the first `n` rows of windows. */
  function AllSum(p: Picture, dw: nat, dh: nat, n: nat, c: nat): nat
    requires p.Valid() && n <= dh && c < 4
  {
    if n == 0 then 0 else AllSum(p, dw, dh, n - 1, c) + AcrossSum(p, dw, dh, dw, n - 1, c)
  }

  lemma {:induction false} AcrossIsTheRow(p: Picture, dw: nat, dh: nat, n: nat, dy: nat, c: nat)
    requires p.Valid() && 0 < n <= dw <= p.width && dy < dh && c < 4
    requires High(n - 1, p.width, dw) <= p.width && High(dy, p.height, dh) <= p.height
    ensures AcrossSum(p, dw, dh, n, dy, c)
      == p.Sum(0, High(n - 1, p.width, dw), Low(dy, p.height, dh), High(dy, p.height, dh), c)
    decreases n
  {
    hide Low, High, Picture.Sum, Picture.Valid;
    WindowsTile(n - 1, p.width, dw);
    if n == 1 {
      assert AcrossSum(p, dw, dh, 0, dy, c) == 0;
    } else {
      WindowsTile(n - 2, p.width, dw);
      AcrossIsTheRow(p, dw, dh, n - 1, dy, c);
      SumSplitsAcross(p, 0, Low(n - 1, p.width, dw), High(n - 1, p.width, dw), Low(dy, p.height, dh),
        High(dy, p.height, dh), c);
    }
  }

  lemma {:induction false} RowsAreThePicture(p: Picture, dw: nat, dh: nat, n: nat, c: nat)
    requires p.Valid() && 0 < dw <= p.width && 0 < n <= dh <= p.height && c < 4
    requires High(n - 1, p.height, dh) <= p.height
    ensures AllSum(p, dw, dh, n, c) == p.Sum(0, p.width, 0, High(n - 1, p.height, dh), c)
    decreases n
  {
    hide Low, High, Picture.Sum, AcrossSum, Picture.Valid;
    WindowsTile(dw - 1, p.width, dw);
    WindowsTile(n - 1, p.height, dh);
    AcrossIsTheRow(p, dw, dh, dw, n - 1, c);
    if n == 1 {
      assert AllSum(p, dw, dh, 0, c) == 0;
    } else {
      WindowsTile(n - 2, p.height, dh);
      RowsAreThePicture(p, dw, dh, n - 1, c);
      SumSplitsDown(p, 0, p.width, 0, Low(n - 1, p.height, dh), High(n - 1, p.height, dh), c);
    }
  }

  /** Shrinking, what the windows sum to is what the whole picture sums to: no pixel is lost or counted twice. */
  lemma EveryPixelCountsOnce(p: Picture, dw: nat, dh: nat, c: nat)
    requires p.Valid() && 0 < dw <= p.width && 0 < dh <= p.height && c < 4
    ensures AllSum(p, dw, dh, dh, c) == p.Sum(0, p.width, 0, p.height, c)
  {
    WindowsTile(dh - 1, p.height, dh);
    RowsAreThePicture(p, dw, dh, dh, c);
  }

  // MARK: True averages

  /** The largest window of opaque white pixels whose sums still fit in 32 bits. */
  const SAFE_WINDOW: nat := 66_051

  lemma {:induction false} RowIsBounded(p: Picture, y: nat, x0: nat, x1: nat, c: nat)
    requires p.Valid() && y < p.height && x0 <= x1 <= p.width && c < 4
    ensures p.RowSum(y, x0, x1, c) <= (x1 - x0) * 65_025
    ensures c == 3 ==> p.RowSum(y, x0, x1, c) <= (x1 - x0) * 255
    decreases x1
  {
    hide Picture.Valid;
    if x0 < x1 {
      RowIsBounded(p, y, x0, x1 - 1, c);
      WeightIsBounded(p, x1 - 1, y, c);
    }
  }

  lemma WeightIsBounded(p: Picture, x: nat, y: nat, c: nat)
    requires p.Valid() && x < p.width && y < p.height && c < 4
    ensures p.Weight(x, y, c) <= 65_025 && (c == 3 ==> p.Weight(x, y, c) <= 255)
  {
    var value: nat, alpha: nat := p.At(x, y, c), p.At(x, y, 3);
    Times(value, 255, alpha);
  }

  lemma {:induction false} SumIsBounded(p: Picture, x0: nat, x1: nat, y0: nat, y1: nat, c: nat)
    requires p.Valid() && x0 <= x1 <= p.width && y0 <= y1 <= p.height && c < 4
    ensures p.Sum(x0, x1, y0, y1, c) <= Size(x0, x1, y0, y1) * 65_025
    ensures c == 3 ==> p.Sum(x0, x1, y0, y1, c) <= Size(x0, x1, y0, y1) * 255
    decreases y1
  {
    hide Picture.Valid, Picture.RowSum;
    if y0 < y1 {
      SumIsBounded(p, x0, x1, y0, y1 - 1, c);
      RowIsBounded(p, y1 - 1, x0, x1, c);
      assert Size(x0, x1, y0, y1) == Size(x0, x1, y0, y1 - 1) + (x1 - x0);
    }
  }

  predicate Within(p: Picture, x0: nat, x1: nat, y0: nat, y1: nat, c: nat, low: nat, high: nat)
    requires p.Valid() && x1 <= p.width && y1 <= p.height && c < 3
  {
    forall x, y :: x0 <= x < x1 && y0 <= y < y1 && p.At(x, y, 3) > 0 ==> low <= p.At(x, y, c) <= high
  }

  lemma WeightStaysBetween(value: nat, alpha: nat, low: nat, high: nat)
    requires alpha > 0 ==> low <= value <= high
    ensures low * alpha <= value * alpha <= high * alpha
  {
    if alpha > 0 {
      Times(low, value, alpha);
      Times(value, high, alpha);
    }
  }

  lemma Distributes(k: nat, a: nat, b: nat)
    ensures k * (a + b) == k * a + k * b
  {
  }

  lemma {:induction false} RowStaysBetween(p: Picture, y: nat, x0: nat, x1: nat, c: nat, low: nat, high: nat)
    requires p.Valid() && x0 <= x1 <= p.width && y < p.height && c < 3 && Within(p, x0, x1, y, y + 1, c, low, high)
    ensures low * p.RowSum(y, x0, x1, 3) <= p.RowSum(y, x0, x1, c) <= high * p.RowSum(y, x0, x1, 3)
    decreases x1
  {
    hide Picture.Valid, Picture.At;
    if x0 < x1 {
      RowStaysBetween(p, y, x0, x1 - 1, c, low, high);
      var value: nat, alpha: nat, rest := p.At(x1 - 1, y, c), p.At(x1 - 1, y, 3), p.RowSum(y, x0, x1 - 1, 3);
      WeightStaysBetween(value, alpha, low, high);
      Distributes(low, rest, alpha);
      Distributes(high, rest, alpha);
    }
  }

  lemma {:induction false} SumStaysBetween(p: Picture, x0: nat, x1: nat, y0: nat, y1: nat, c: nat, low: nat, high: nat)
    requires p.Valid() && x0 <= x1 <= p.width && y0 <= y1 <= p.height && c < 3
      && Within(p, x0, x1, y0, y1, c, low, high)
    ensures low * p.Sum(x0, x1, y0, y1, 3) <= p.Sum(x0, x1, y0, y1, c) <= high * p.Sum(x0, x1, y0, y1, 3)
    decreases y1
  {
    hide Picture.Valid, Picture.RowSum, Picture.At;
    if y0 < y1 {
      SumStaysBetween(p, x0, x1, y0, y1 - 1, c, low, high);
      RowStaysBetween(p, y1 - 1, x0, x1, c, low, high);
      var above, row := p.Sum(x0, x1, y0, y1 - 1, 3), p.RowSum(y1 - 1, x0, x1, 3);
      Distributes(low, above, row);
      Distributes(high, above, row);
    }
  }

  lemma SmallWrap(n: nat)
    requires n < U32
    ensures Wrapped(n) == n
  {
  }

  lemma Fraction(sum: nat, whole: nat, low: nat, high: nat)
    requires whole > 0 && low * whole <= sum <= high * whole
    ensures low <= sum / whole <= high
  {
    Quotient(sum, whole, low);
    Quotient(sum, whole, high + 1);
    assert (high + 1) * whole == high * whole + whole;
  }

  function Over(n: nat, d: nat): nat
    requires d > 0
  {
    n / d
  }

  /** A quotient survives wrapping exactly if there is nothing to wrap. */
  lemma WrapChangesQuotient(n: nat, d: nat)
    requires 0 < d <= U32
    ensures Over(Wrapped(n), d) <= Over(n, d) && (Over(Wrapped(n), d) == Over(n, d) <==> n < U32)
  {
    var r := Wrapped(n);
    if n < U32 {
      SmallWrap(n);
    } else {
      assert r + U32 <= n;
      hide Wrapped;
      Quotient(r, d, r / d);
      assert (r / d + 1) * d == r / d * d + d;
      Quotient(n, d, r / d + 1);
    }
  }

  lemma MeanIsExactly(sum: nat, alpha: nat, area: nat, c: nat)
    requires 0 < area < U32 && alpha <= area * 255 && c < 4
    ensures c == 3 ==> (Mean(Wrapped(sum), Wrapped(alpha), Wrapped(area), c) == alpha / area <==> alpha < U32)
    ensures c < 3 && 0 < alpha < U32 && sum / alpha <= 255 ==>
      (Mean(Wrapped(sum), Wrapped(alpha), Wrapped(area), c) == sum / alpha <==> sum < U32)
  {
    SmallWrap(area);
    hide Mean, Wrapped;
    if c == 3 {
      Fraction(alpha, area, 0, 255);
      AlphaIsExactly(Wrapped(sum), alpha, area);
    } else if 0 < alpha < U32 && sum / alpha <= 255 {
      SmallWrap(alpha);
      ColourIsExactly(sum, alpha, area, c);
    }
  }

  lemma AlphaIsExactly(sum: nat, alpha: nat, area: nat)
    requires 0 < area < U32 && Over(alpha, area) <= 255
    ensures Mean(sum, Wrapped(alpha), area, 3) == Over(alpha, area) <==> alpha < U32
  {
    hide Wrapped, Mean, Over;
    WrapChangesQuotient(alpha, area);
    AlphaOf(sum, Wrapped(alpha), area);
  }

  lemma ColourIsExactly(sum: nat, alpha: nat, area: nat, c: nat)
    requires area > 0 && 0 < alpha < U32 && c < 3 && Over(sum, alpha) <= 255
    ensures Mean(Wrapped(sum), alpha, area, c) == Over(sum, alpha) <==> sum < U32
  {
    hide Wrapped, Mean, Over;
    WrapChangesQuotient(sum, alpha);
    ColourOf(Wrapped(sum), alpha, area, c);
  }

  lemma AlphaOf(sum: nat, alpha: nat, area: nat)
    requires area > 0 && Over(alpha, area) <= 255
    ensures Mean(sum, alpha, area, 3) == Over(alpha, area)
  {
    SmallByte(alpha / area);
  }

  lemma ColourOf(sum: nat, alpha: nat, area: nat, c: nat)
    requires area > 0 && alpha > 0 && c < 3 && Over(sum, alpha) <= 255
    ensures Mean(sum, alpha, area, c) == Over(sum, alpha)
  {
    SmallByte(sum / alpha);
  }

  /**
   * The alpha of a window is the mean alpha, rounded down, exactly if the alphas add up to less
   * than 2^32; and then each colour is the mean weighted by alpha exactly if the weighted sum does too.
   */
  lemma TrueAverageExactly(p: Picture, dw: nat, dh: nat, dx: nat, dy: nat, c: nat)
    requires p.Valid() && dx < dw && dy < dh && c < 4 && Countable(p, dw, dh) && Area(p, dw, dh, dx, dy) < U32
    ensures Area(p, dw, dh, dx, dy) > 0
    ensures var sum, alpha := WindowSum(p, dw, dh, dx, dy, c), WindowSum(p, dw, dh, dx, dy, 3);
      && (c == 3 ==> (Channel(p, dw, dh, dx, dy, c) == alpha / Area(p, dw, dh, dx, dy) <==> alpha < U32))
      && (c < 3 && 0 < alpha < U32 ==> (Channel(p, dw, dh, dx, dy, c) == sum / alpha <==> sum < U32))
  {
    WindowsTile(dx, p.width, dw);
    WindowsTile(dy, p.height, dh);
    hide Low, High, Picture.Sum, Picture.Valid, Countable, Wrapped, Size, Mean;
    ChannelIsMean(p, dw, dh, dx, dy, c);
    AreaIsSize(p, dw, dh, dx, dy);
    hide Area, Channel;
    var x0, x1, y0, y1 := Low(dx, p.width, dw), High(dx, p.width, dw), Low(dy, p.height, dh), High(dy, p.height, dh);
    SmallWrap(Area(p, dw, dh, dx, dy));
    SumIsBounded(p, x0, x1, y0, y1, 3);
    MeanIsExactly(p.Sum(x0, x1, y0, y1, c), p.Sum(x0, x1, y0, y1, 3), Area(p, dw, dh, dx, dy), c);
    if c < 3 && p.Sum(x0, x1, y0, y1, 3) > 0 {
      ColourIsByte(p, x0, x1, y0, y1, c);
    }
  }

  /**
   * A window of at most 66051 pixels always gives true averages, so a colour lies between the least
   * and the greatest colour of its visible pixels. A window with nothing visible gives black.
   */
  lemma SmallWindowAverage(p: Picture, dw: nat, dh: nat, dx: nat, dy: nat, c: nat)
    requires p.Valid() && dx < dw && dy < dh && c < 4 && Countable(p, dw, dh)
    ensures Area(p, dw, dh, dx, dy) <= SAFE_WINDOW ==>
      var sum, alpha := WindowSum(p, dw, dh, dx, dy, c), WindowSum(p, dw, dh, dx, dy, 3);
      if c == 3 then Area(p, dw, dh, dx, dy) > 0 && Channel(p, dw, dh, dx, dy, c) == alpha / Area(p, dw, dh, dx, dy)
      else if alpha == 0 then Channel(p, dw, dh, dx, dy, c) == 0
      else Channel(p, dw, dh, dx, dy, c) == sum / alpha
  {
    WindowsTile(dx, p.width, dw);
    WindowsTile(dy, p.height, dh);
    hide Low, High, Picture.Sum, Picture.Valid, Countable, Wrapped, Size;
    ChannelIsMean(p, dw, dh, dx, dy, c);
    AreaIsSize(p, dw, dh, dx, dy);
    hide Area, Channel;
    var x0, x1, y0, y1 := Low(dx, p.width, dw), High(dx, p.width, dw), Low(dy, p.height, dh), High(dy, p.height, dh);
    if Area(p, dw, dh, dx, dy) <= SAFE_WINDOW {
      SumIsBounded(p, x0, x1, y0, y1, c);
      SumIsBounded(p, x0, x1, y0, y1, 3);
      MeanIsExact(p.Sum(x0, x1, y0, y1, c), p.Sum(x0, x1, y0, y1, 3), Area(p, dw, dh, dx, dy), c);
      if c < 3 && p.Sum(x0, x1, y0, y1, 3) > 0 {
        ColourIsByte(p, x0, x1, y0, y1, c);
      }
    }
  }

  /** Nothing wraps, and nothing is cut off, in sums this small. */
  lemma MeanIsExact(sum: nat, alpha: nat, area: nat, c: nat)
    requires area <= SAFE_WINDOW && sum <= area * 65_025 && alpha <= area * 255 && c < 4 && Wrapped(area) != 0
    ensures area > 0
    ensures c == 3 ==> Mean(Wrapped(sum), Wrapped(alpha), Wrapped(area), c) == alpha / area
    ensures c < 3 && alpha == 0 ==> Mean(Wrapped(sum), Wrapped(alpha), Wrapped(area), c) == 0
    ensures c < 3 && alpha > 0 && sum / alpha <= 255 ==>
      Mean(Wrapped(sum), Wrapped(alpha), Wrapped(area), c) == sum / alpha
  {
    SmallWrap(area);
    SmallWrap(sum);
    SmallWrap(alpha);
    hide Wrapped, Mean;
    if c == 3 {
      AlphaMean(sum, alpha, area);
    } else {
      ColourMean(sum, alpha, area, c);
    }
  }

  lemma AlphaMean(sum: nat, alpha: nat, area: nat)
    requires area > 0 && alpha <= area * 255
    ensures Mean(sum, alpha, area, 3) == alpha / area
  {
    Fraction(alpha, area, 0, 255);
    SmallByte(alpha / area);
  }

  lemma ColourMean(sum: nat, alpha: nat, area: nat, c: nat)
    requires area > 0 && c < 3
    ensures alpha == 0 ==> Mean(sum, alpha, area, c) == 0
    ensures alpha > 0 && sum / alpha <= 255 ==> Mean(sum, alpha, area, c) == sum / alpha
  {
    if alpha > 0 && sum / alpha <= 255 {
      SmallByte(sum / alpha);
    }
  }

  lemma SmallByte(n: int)
    requires 0 <= n <= 255
    ensures n % 256 == n
  {
  }

  lemma ColourIsByte(p: Picture, x0: nat, x1: nat, y0: nat, y1: nat, c: nat)
    requires p.Valid() && x0 <= x1 <= p.width && y0 <= y1 <= p.height && c < 3 && p.Sum(x0, x1, y0, y1, 3) > 0
    ensures p.Sum(x0, x1, y0, y1, c) / p.Sum(x0, x1, y0, y1, 3) <= 255
  {
    SumStaysBetween(p, x0, x1, y0, y1, c, 0, 255);
    hide Picture.Sum;
    Fraction(p.Sum(x0, x1, y0, y1, c), p.Sum(x0, x1, y0, y1, 3), 0, 255);
  }

  lemma ColourStaysBetween(p: Picture, dw: nat, dh: nat, dx: nat, dy: nat, c: nat, low: nat, high: nat)
    requires p.Valid() && dx < dw && dy < dh && c < 3 && Countable(p, dw, dh)
    ensures High(dx, p.width, dw) <= p.width && High(dy, p.height, dh) <= p.height
    ensures Area(p, dw, dh, dx, dy) <= SAFE_WINDOW && WindowSum(p, dw, dh, dx, dy, 3) > 0
      && Within(p, Low(dx, p.width, dw), High(dx, p.width, dw), Low(dy, p.height, dh), High(dy, p.height, dh), c, low,
        high)
      ==> low <= Channel(p, dw, dh, dx, dy, c) <= high
  {
    WindowsTile(dx, p.width, dw);
    WindowsTile(dy, p.height, dh);
    hide Low, High, Picture.Sum, Picture.Valid, Countable, Within, Area, Channel, WindowSum;
    if Area(p, dw, dh, dx, dy) <= SAFE_WINDOW && WindowSum(p, dw, dh, dx, dy, 3) > 0
       && Within(p, Low(dx, p.width, dw), High(dx, p.width, dw), Low(dy, p.height, dh), High(dy, p.height, dh), c, low,
         high) {
      SmallWindowAverage(p, dw, dh, dx, dy, c);
      WindowStaysBetween(p, dw, dh, dx, dy, c, low, high);
      Fraction(WindowSum(p, dw, dh, dx, dy, c), WindowSum(p, dw, dh, dx, dy, 3), low, high);
    }
  }

  lemma WindowStaysBetween(p: Picture, dw: nat, dh: nat, dx: nat, dy: nat, c: nat, low: nat, high: nat)
    requires p.Valid() && dx < dw && dy < dh && c < 3
    requires High(dx, p.width, dw) <= p.width && High(dy, p.height, dh) <= p.height
    requires Low(dx, p.width, dw) <= High(dx, p.width, dw) && Low(dy, p.height, dh) <= High(dy, p.height, dh)
    requires Within(p, Low(dx, p.width, dw), High(dx, p.width, dw), Low(dy, p.height, dh), High(dy, p.height, dh), c,
      low, high)
    ensures low * WindowSum(p, dw, dh, dx, dy, 3) <= WindowSum(p, dw, dh, dx, dy, c)
      <= high * WindowSum(p, dw, dh, dx, dy, 3)
  {
    hide Low, High, Picture.Sum, Picture.Valid, Within;
    SumStaysBetween(p, Low(dx, p.width, dw), High(dx, p.width, dw), Low(dy, p.height, dh), High(dy, p.height, dh), c,
      low, high);
  }

  lemma {:induction false} WhiteRow(p: Picture, y: nat, x0: nat, x1: nat, c: nat)
    requires p.Valid() && y < p.height && x0 <= x1 <= p.width && c < 3
    requires forall x :: x0 <= x < x1 ==> p.At(x, y, c) == 255 && p.At(x, y, 3) == 255
    ensures p.RowSum(y, x0, x1, c) == (x1 - x0) * 65_025
    decreases x1
  {
    hide Picture.Valid, Picture.At;
    if x0 < x1 {
      WhiteRow(p, y, x0, x1 - 1, c);
    }
  }

  /** The bound is exact: opaque white pixels overflow a colour's sum from the 66052nd on. */
  lemma {:induction false} WhiteFitsUpToTheLimit(p: Picture, x0: nat, x1: nat, y0: nat, y1: nat, c: nat)
    requires p.Valid() && x0 <= x1 <= p.width && y0 <= y1 <= p.height && c < 3
    requires forall x, y :: x0 <= x < x1 && y0 <= y < y1 ==> p.At(x, y, c) == 255 && p.At(x, y, 3) == 255
    ensures p.Sum(x0, x1, y0, y1, c) == Size(x0, x1, y0, y1) * 65_025
    ensures p.Sum(x0, x1, y0, y1, c) < U32 <==> Size(x0, x1, y0, y1) <= SAFE_WINDOW
    decreases y1
  {
    hide Picture.Valid, Picture.At, Picture.RowSum;
    if y0 < y1 {
      WhiteFitsUpToTheLimit(p, x0, x1, y0, y1 - 1, c);
      WhiteRow(p, y1 - 1, x0, x1, c);
      assert Size(x0, x1, y0, y1) == Size(x0, x1, y0, y1 - 1) + (x1 - x0);
    }
  }

  lemma {:induction false} WhiteAlphaRow(p: Picture, y: nat, x0: nat, x1: nat)
    requires p.Valid() && y < p.height && x0 <= x1 <= p.width && forall x :: x0 <= x < x1 ==> p.At(x, y, 3) == 255
    ensures p.RowSum(y, x0, x1, 3) == (x1 - x0) * 255
    decreases x1
  {
    hide Picture.Valid, Picture.At;
    if x0 < x1 {
      WhiteAlphaRow(p, y, x0, x1 - 1);
    }
  }

  lemma {:induction false} WhiteAlpha(p: Picture, x0: nat, x1: nat, y0: nat, y1: nat)
    requires p.Valid() && x0 <= x1 <= p.width && y0 <= y1 <= p.height
    requires forall x, y :: x0 <= x < x1 && y0 <= y < y1 ==> p.At(x, y, 3) == 255
    ensures p.Sum(x0, x1, y0, y1, 3) == Size(x0, x1, y0, y1) * 255
    decreases y1
  {
    hide Picture.Valid, Picture.At, Picture.RowSum;
    if y0 < y1 {
      WhiteAlpha(p, x0, x1, y0, y1 - 1);
      WhiteAlphaRow(p, y1 - 1, x0, x1);
      assert Size(x0, x1, y0, y1) == Size(x0, x1, y0, y1 - 1) + (x1 - x0);
    }
  }

  /** A window of opaque white pixels comes out white exactly up to 66051 of them; 66052 come out black. */
  lemma WhiteTurnsBlack(p: Picture, dw: nat, dh: nat, dx: nat, dy: nat, c: nat)
    requires p.Valid() && dx < dw && dy < dh && c < 3 && Countable(p, dw, dh) && Area(p, dw, dh, dx, dy) * 255 < U32
    requires High(dx, p.width, dw) <= p.width && High(dy, p.height, dh) <= p.height
    requires forall x, y ::
      && Low(dx, p.width, dw) <= x < High(dx, p.width, dw)
      && Low(dy, p.height, dh) <= y < High(dy, p.height, dh)
      ==> p.At(x, y, c) == 255 && p.At(x, y, 3) == 255
    ensures Channel(p, dw, dh, dx, dy, c) == 255 <==> Area(p, dw, dh, dx, dy) <= SAFE_WINDOW
    ensures Area(p, dw, dh, dx, dy) == SAFE_WINDOW + 1 ==> Channel(p, dw, dh, dx, dy, c) == 0
  {
    WindowsTile(dx, p.width, dw);
    WindowsTile(dy, p.height, dh);
    var x0, x1, y0, y1 := Low(dx, p.width, dw), High(dx, p.width, dw), Low(dy, p.height, dh), High(dy, p.height, dh);
    hide Low, High, Picture.Sum, Picture.Valid, Picture.At, Countable, Size, Wrapped, Mean;
    ChannelIsMean(p, dw, dh, dx, dy, c);
    AreaIsSize(p, dw, dh, dx, dy);
    WhiteFitsUpToTheLimit(p, x0, x1, y0, y1, c);
    WhiteAlpha(p, x0, x1, y0, y1);
    hide *;
    WhiteMean(Area(p, dw, dh, dx, dy), c);
  }

  lemma WhiteMean(area: nat, c: nat)
    requires 0 < area && area * 255 < U32 && c < 3 && Wrapped(area) != 0
    ensures Mean(Wrapped(area * 65_025), Wrapped(area * 255), Wrapped(area), c) == 255 <==> area <= SAFE_WINDOW
    ensures area == SAFE_WINDOW + 1 ==> Mean(Wrapped(area * 65_025), Wrapped(area * 255), Wrapped(area), c) == 0
  {
    assert area * 65_025 == 255 * (area * 255);
    WeightOverAlpha(255, area * 255);
    MeanIsExactly(area * 65_025, area * 255, area, c);
    if area == SAFE_WINDOW + 1 {
      OneTooMany(c);
    }
  }

  lemma OneTooMany(c: nat)
    requires c < 3
    ensures var n := SAFE_WINDOW + 1;
      Wrapped(n) != 0 && Mean(Wrapped(n * 65_025), Wrapped(n * 255), Wrapped(n), c) == 0
  {
    assert (SAFE_WINDOW + 1) * 65_025 == U32 + 64_004 && (SAFE_WINDOW + 1) * 255 == 16_843_260;
    assert Wrapped(U32 + 64_004) == 64_004;
  }

  // MARK: Without shrinking

  lemma SinglePixel(p: Picture, x: nat, y: nat, c: nat)
    requires p.Valid() && x < p.width && y < p.height && c < 4
    ensures p.Sum(x, x + 1, y, y + 1, c) == p.Weight(x, y, c)
  {
    hide Picture.Weight, Picture.Valid;
    assert p.Sum(x, x + 1, y, y, c) == 0 && p.RowSum(y, x, x, c) == 0;
  }

  /** Enlarging copies pixels, and equal sizes copy each to its own place; only an invisible pixel loses its colour. */
  lemma EnlargingCopiesPixels(p: Picture, dw: nat, dh: nat, dx: nat, dy: nat, c: nat)
    requires p.Valid() && p.width <= dw && p.height <= dh && dx < dw && dy < dh && c < 4 && Countable(p, dw, dh)
    ensures Low(dx, p.width, dw) < p.width && Low(dy, p.height, dh) < p.height
    ensures var x, y := Low(dx, p.width, dw), Low(dy, p.height, dh);
      Channel(p, dw, dh, dx, dy, c) == if c < 3 && p.At(x, y, 3) == 0 then 0 else p.At(x, y, c)
    ensures dw == p.width && dh == p.height ==> Low(dx, p.width, dw) == dx && Low(dy, p.height, dh) == dy
  {
    WindowsTile(dx, p.width, dw);
    WindowsTile(dy, p.height, dh);
    hide Low, High, Picture.Sum, Picture.Valid, Picture.At, Countable, Area, Channel;
    var x, y := Low(dx, p.width, dw), Low(dy, p.height, dh);
    AreaIsSize(p, dw, dh, dx, dy);
    assert Size(x, x + 1, y, y + 1) == 1;
    SmallWindowAverage(p, dw, dh, dx, dy, c);
    SinglePixel(p, x, y, c);
    SinglePixel(p, x, y, 3);
    WeightOverAlpha(p.At(x, y, c), p.At(x, y, 3));
  }

  lemma WeightOverAlpha(value: nat, alpha: nat)
    ensures alpha > 0 ==> value * alpha / alpha == value
  {
    if alpha > 0 {
      Quotient(value * alpha, alpha, value);
      Quotient(value * alpha, alpha, value + 1);
      assert (value + 1) * alpha == value * alpha + alpha;
    }
  }

  // MARK: Placement

  function Clear(n: nat): (s: Bytes)
    ensures |s| == n
  {
    seq(n, _ => 0)
  }

  /** Row `y` of the canvas: a row of the art between transparent margins, or nothing. */
  function CanvasRow(art: Bytes, aw: nat, ah: nat, width: nat, height: nat, y: nat): (row: Bytes)
    requires aw <= width && ah <= height && |art| == RowStart(ah, aw)
    ensures |row| == width * 4
  {
    var left, top := (width - aw) / 2, (height - ah) / 2;
    if top <= y < top + ah then
      RowsFollow(y - top, aw, ah);
      var from := RowStart(y - top, aw);
      Clear(left * 4) + art[from..from + aw * 4] + Clear((width - left - aw) * 4)
    else Clear(width * 4)
  }

  /** The canvas has a whole row of bytes for each of its rows. */
  function RowOf(rgba: Bytes, y: nat, width: nat, height: nat): (row: Bytes)
    requires y < height && |rgba| == RowStart(height, width)
    ensures |row| == width * 4
  {
    RowsFollow(y, width, height);
    rgba[RowStart(y, width)..RowStart(y, width) + width * 4]
  }

  lemma RowsApart(y: nat, z: nat, width: nat)
    ensures y < z ==> RowStart(y, width) + width * 4 <= RowStart(z, width)
  {
    if y < z {
      RowsFollow(y, width, z);
    }
  }

  method CopyInto(rgba: array<Byte>, at: nat, bytes: Bytes)
    requires at + |bytes| <= rgba.Length
    modifies rgba
    ensures rgba[..] == old(rgba[..at]) + bytes + old(rgba[at + |bytes|..])
  {
    forall i | 0 <= i < |bytes| {
      rgba[at + i] := bytes[i];
    }
  }

  /** The canvas when the first `done` rows of the art are in place. */
  ghost predicate PlacedUpTo(rgba: Bytes, art: Bytes, aw: nat, ah: nat, width: nat, height: nat, done: nat)
    requires aw <= width && ah <= height && |art| == RowStart(ah, aw) && |rgba| == RowStart(height, width)
  {
    forall y :: 0 <= y < height ==>
      RowOf(rgba, y, width, height)
        == if y < (height - ah) / 2 + done then CanvasRow(art, aw, ah, width, height, y) else Clear(width * 4)
  }

  /** Copies the art row by row into the middle of a transparent canvas. */
  method Place(art: array<Byte>, aw: nat, ah: nat, width: nat, height: nat) returns (rgba: array<Byte>)
    requires aw <= width && ah <= height && art.Length == RowStart(ah, aw)
    ensures rgba.Length == RowStart(height, width)
    ensures forall y :: 0 <= y < height ==>
      RowOf(rgba[..], y, width, height) == CanvasRow(art[..], aw, ah, width, height, y)
  {
    hide *;
    var left, top := (width - aw) / 2, (height - ah) / 2;
    rgba := new Byte[RowStart(height, width)](_ => 0);
    NothingPlaced(rgba[..], art[..], aw, ah, width, height);
    for row := 0 to ah
      invariant PlacedUpTo(rgba[..], art[..], aw, ah, width, height, row)
    {
      RowsFollow(row, aw, ah);
      RowsFollow(top + row, width, height);
      var src, dst := RowStart(row, aw), RowStart(top + row, width) + left * 4;
      ghost var before := rgba[..];
      CopyInto(rgba, dst, art[src..src + aw * 4]);
      RowCopied(before, rgba[..], art[..], aw, ah, width, height, row, art[src..src + aw * 4]);
    }
    AllPlaced(rgba[..], art[..], aw, ah, width, height);
  }

  lemma NothingPlaced(rgba: Bytes, art: Bytes, aw: nat, ah: nat, width: nat, height: nat)
    requires aw <= width && ah <= height && |art| == RowStart(ah, aw) && |rgba| == RowStart(height, width)
    requires forall i :: 0 <= i < |rgba| ==> rgba[i] == 0
    ensures PlacedUpTo(rgba, art, aw, ah, width, height, 0)
  {
    hide RowStart;
    forall y | 0 <= y < height ensures RowOf(rgba, y, width, height) == Clear(width * 4) {
      RowsFollow(y, width, height);
    }
  }

  lemma AllPlaced(rgba: Bytes, art: Bytes, aw: nat, ah: nat, width: nat, height: nat)
    requires aw <= width && ah <= height && |art| == RowStart(ah, aw) && |rgba| == RowStart(height, width)
    requires PlacedUpTo(rgba, art, aw, ah, width, height, ah)
    ensures forall y :: 0 <= y < height ==> RowOf(rgba, y, width, height) == CanvasRow(art, aw, ah, width, height, y)
  {
    hide RowStart, RowOf;
  }

  /** Copying one row of art changes that row of the canvas, and no other. */
  lemma RowCopied(
    before: Bytes, after: Bytes, art: Bytes, aw: nat, ah: nat, width: nat, height: nat, row: nat, line: Bytes
  )
    requires aw <= width && ah <= height && |art| == RowStart(ah, aw) && row < ah
    requires |before| == |after| == RowStart(height, width) && PlacedUpTo(before, art, aw, ah, width, height, row)
    requires RowStart(row, aw) + aw * 4 <= |art| && line == art[RowStart(row, aw)..RowStart(row, aw) + aw * 4]
    requires RowStart((height - ah) / 2 + row, width) + width * 4 <= |after|
    requires var dst := RowStart((height - ah) / 2 + row, width) + (width - aw) / 2 * 4;
      after == before[..dst] + line + before[dst + |line|..]
    ensures PlacedUpTo(after, art, aw, ah, width, height, row + 1)
  {
    hide RowStart, CanvasRow, RowOf;
    var left, y0 := (width - aw) / 2, (height - ah) / 2 + row;
    var dst := RowStart(y0, width) + left * 4;
    assert RowOf(before, y0, width, height) == Clear(width * 4);
    RowBecomes(before, after, line, width, height, y0, left);
    LineOfArt(art, aw, ah, width, height, row);
    forall y | 0 <= y < height && y != y0 ensures RowOf(after, y, width, height) == RowOf(before, y, width, height) {
      OtherRowsStay(before, after, line, dst, y0, y, width, height);
    }
  }

  lemma LineOfArt(art: Bytes, aw: nat, ah: nat, width: nat, height: nat, row: nat)
    requires aw <= width && ah <= height && |art| == RowStart(ah, aw) && row < ah && RowStart(row, aw) + aw * 4 <= |art|
    ensures var left := (width - aw) / 2;
      CanvasRow(art, aw, ah, width, height, (height - ah) / 2 + row)
        == Clear(left * 4) + art[RowStart(row, aw)..RowStart(row, aw) + aw * 4] + Clear((width - left - aw) * 4)
  {
    hide RowStart, Clear;
  }

  lemma RowBecomes(before: Bytes, after: Bytes, line: Bytes, width: nat, height: nat, y: nat, left: nat)
    requires |before| == |after| == RowStart(height, width) && y < height && left * 4 + |line| <= width * 4
    requires RowStart(y, width) + width * 4 <= |after| && RowOf(before, y, width, height) == Clear(width * 4)
    requires var dst := RowStart(y, width) + left * 4; after == before[..dst] + line + before[dst + |line|..]
    ensures RowOf(after, y, width, height) == Clear(left * 4) + line + Clear(width * 4 - left * 4 - |line|)
  {
    hide RowStart;
    var start, dst, right := RowStart(y, width), RowStart(y, width) + left * 4, width * 4 - left * 4 - |line|;
    var was := before[start..start + width * 4];
    assert was == Clear(width * 4);
    assert before[start..dst] == was[..left * 4] == Clear(left * 4);
    assert before[dst + |line|..start + width * 4] == was[left * 4 + |line|..] == Clear(right);
    var mid, end := dst + |line|, start + width * 4;
    assert after[start..dst] == before[start..dst] && after[dst..mid] == line && after[mid..end] == before[mid..end];
    assert after[start..end] == after[start..dst] + after[dst..mid] + after[mid..end];
  }

  lemma OtherRowsStay(before: Bytes, after: Bytes, art: Bytes, dst: nat, row: nat, y: nat, width: nat, height: nat)
    requires |before| == |after| == RowStart(height, width) && row < height && y < height && y != row
    requires RowStart(row, width) <= dst && dst + |art| <= RowStart(row, width) + width * 4 <= |before|
    requires after == before[..dst] + art + before[dst + |art|..]
    ensures RowOf(after, y, width, height) == RowOf(before, y, width, height)
  {
    hide RowStart;
    RowsApart(y, row, width);
    RowsApart(row, y, width);
    RowsFollow(y, width, height);
    var from := RowStart(y, width);
    if y < row {
      assert after[..dst] == before[..dst] && from + width * 4 <= dst;
      assert after[..dst][from..from + width * 4] == before[..dst][from..from + width * 4];
    } else {
      var end := dst + |art|;
      assert after[end..] == before[end..] && end <= from;
      assert after[end..][from - end..from - end + width * 4] == before[end..][from - end..from - end + width * 4];
    }
  }
}

/** How the controller reads the frames the driver sends, in the page
    addressing mode `DefInit` selects: a page select sets the page pointer,
    the two column-start frames set the low and the high bits of the column
    pointer, and each pixel byte of a data frame is stored in display RAM at
    (page, column) and advances the column pointer. Against it, the layout
    the header documents for bitmaps is proved of every region write: byte
    r * width + c of the data lands in page y8x / 8 + r, column x + c, and
    nothing outside the region changes. */
module Controller {
  import opened Ssd1315Defs
  import opened Commands
  import opened Geometry
  import opened Transfer
  import opened Staging

  /** The page pointer, the column pointer and the display RAM, one byte
      (8 vertical pixels) per (page, column). */
  datatype Screen = Screen(page: int, col: int, ram: map<(int, int), bv8>)

  /** Stores `bytes` in the current page from the column pointer on. */
  function Store(s: Screen, bytes: seq<bv8>): (r: Screen)
    ensures r.page == s.page && r.col == s.col + |bytes|
    decreases |bytes|
  {
    if bytes == [] then s
    else Store(Screen(s.page, s.col + 1, s.ram[(s.page, s.col) := bytes[0]]), bytes[1..])
  }

  /** The controller's reaction to one frame. */
  function Receive(s: Screen, f: Frame): Screen {
    if IsDataFrame(f) then Store(s, f[1..])
    else
      match Decode(f)
      case Some(PageStart(p)) => s.(page := p as int)
      case Some(LowColumnStart(l)) => s.(col := s.col - s.col % 16 + l as int)
      case Some(HighColumnStart(h)) => s.(col := h as int * 16 + s.col % 16)
      case _ => s
  }

  /** The state after the frames `fs`, in order, each taken by `rx`. */
  function Run(rx: (Screen, Frame) -> Screen, s: Screen, fs: seq<Frame>): Screen
    decreases |fs|
  {
    if fs == [] then s else Run(rx, rx(s, fs[0]), fs[1..])
  }

  /** What the layout proofs need of a controller in page addressing mode:
      a data frame stores its pixel bytes from the column pointer on, a page
      select of a page of the surface sets the page pointer, and a column
      select of a column of the surface sets the column pointer. */
  ghost predicate PageAddressing(rx: (Screen, Frame) -> Screen, sp: int -> Frame, sc: int -> seq<Frame>) {
    && (forall s, staged: seq<bv8>, k, n {:trigger rx(s, DataFrame(staged, k, n))} :: 0 <= k <= k + n <= |staged| ==>
          rx(s, DataFrame(staged, k, n)) == Store(s, staged[k..k + n]))
    && (forall s, p {:trigger rx(s, sp(p))} :: 0 <= p < PAGE_COUNT ==> rx(s, sp(p)) == s.(page := p))
    && (forall s, c {:trigger Run(rx, s, sc(c))} :: 0 <= c < COL_COUNT ==> Run(rx, s, sc(c)) == s.(col := c))
  }

  lemma {:induction false} RunAppend(rx: (Screen, Frame) -> Screen, s: Screen, a: seq<Frame>, b: seq<Frame>)
    ensures Run(rx, s, a + b) == Run(rx, Run(rx, s, a), b)
    decreases |a|
  {
    if a == [] {
      assert a + b == b;
    } else {
      assert (a + b)[1..] == a[1..] + b;
      RunAppend(rx, rx(s, a[0]), a[1..], b);
    }
  }

  lemma {:induction false} StoreAppend(s: Screen, a: seq<bv8>, b: seq<bv8>)
    ensures Store(s, a + b) == Store(Store(s, a), b)
    decreases |a|
  {
    if a == [] {
      assert a + b == b;
    } else {
      assert (a + b)[1..] == a[1..] + b;
      StoreAppend(Screen(s.page, s.col + 1, s.ram[(s.page, s.col) := a[0]]), a[1..], b);
    }
  }

  /** Byte `c` of what is stored lands in the current page, `c` columns on. */
  lemma {:induction false} StoreCell(s: Screen, bytes: seq<bv8>, c: int)
    requires 0 <= c < |bytes|
    ensures (s.page, s.col + c) in Store(s, bytes).ram
    ensures Store(s, bytes).ram[(s.page, s.col + c)] == bytes[c]
    decreases |bytes|
  {
    var t := Screen(s.page, s.col + 1, s.ram[(s.page, s.col) := bytes[0]]);
    if c == 0 {
      StoreKeeps(t, bytes[1..], (s.page, s.col));
    } else {
      StoreCell(t, bytes[1..], c - 1);
    }
  }

  /** Storing leaves every cell outside the stored run as it was. */
  lemma {:induction false} StoreKeeps(s: Screen, bytes: seq<bv8>, key: (int, int))
    requires key.0 != s.page || key.1 < s.col || key.1 >= s.col + |bytes|
    ensures (key in Store(s, bytes).ram) == (key in s.ram)
    ensures key in s.ram ==> Store(s, bytes).ram[key] == s.ram[key]
    decreases |bytes|
  {
    if bytes != [] {
      StoreKeeps(Screen(s.page, s.col + 1, s.ram[(s.page, s.col) := bytes[0]]), bytes[1..], key);
    }
  }

  /** The two nibbles of a column of the surface put back together, as the
      column pointer has them after the low and the high frame. */
  lemma {:induction false} NibblesJoin(col: int, c: int, b: bv8)
    requires 0 <= c < COL_COUNT && b == (c % 256) as bv8
    ensures ((b >> 4) & 0x07) as int * 16 + (col - col % 16 + (b & 0x0F) as int) % 16 == c
  {
    assert (col - col % 16 + (b & 0x0F) as int) % 16 == (b & 0x0F) as int;
    assert ((b >> 4) & 0x07) as int * 16 + (b & 0x0F) as int == b as int;
  }

  /** A single frame runs as the controller receives it. */
  lemma {:induction false} RunOne(rx: (Screen, Frame) -> Screen, s: Screen, f: Frame)
    ensures Run(rx, s, [f]) == rx(s, f)
  {
    assert [f][1..] == [];
  }

  /** The low-nibble frame of a column select keeps the column pointer's
      high part and sets its low nibble. */
  lemma {:induction false} LowColumnSets(s: Screen, b: bv8)
    ensures Receive(s, LowColumnCmd(b)) == s.(col := s.col - s.col % 16 + (b & 0x0F) as int)
  {
    ColumnStartDecodes(b);
  }

  /** The high-nibble frame of a column select keeps the column pointer's
      low nibble and sets its high part. */
  lemma {:induction false} HighColumnSets(s: Screen, b: bv8)
    ensures Receive(s, HighColumnCmd(b)) == s.(col := ((b >> 4) & 0x07) as int * 16 + s.col % 16)
  {
    ColumnStartDecodes(b);
  }

  /** The column select of a column of the surface sets the column pointer
      to that column and changes nothing else. */
  lemma {:induction false} ColumnSelectSetsColumn(s: Screen, c: int)
    requires 0 <= c < COL_COUNT
    ensures Run(Receive, s, ColumnSelect(c)) == s.(col := c)
  {
    var b := (c % 256) as bv8;
    var lo := s.(col := s.col - s.col % 16 + (b & 0x0F) as int);
    LowColumnSets(s, b);
    HighColumnSets(lo, b);
    NibblesJoin(s.col, c, b);
    RunOne(Receive, s, LowColumnCmd(b));
    RunOne(Receive, lo, HighColumnCmd(b));
    RunChain(Receive, s, [LowColumnCmd(b)], [HighColumnCmd(b)], lo, s.(col := c));
    assert ColumnSelect(c) == [LowColumnCmd(b)] + [HighColumnCmd(b)];
  }

  /** The page select of a page of the surface sets the page pointer to that
      page and changes nothing else. */
  lemma {:induction false} PageSelectSetsPage(s: Screen, p: int)
    requires 0 <= p < PAGE_COUNT
    ensures Receive(s, PageSelect(p)) == s.(page := p)
  {
    PageStartDecodes((p % 256) as bv8);
  }

  /** The modelled controller works in page addressing mode. */
  lemma {:induction false} ReceivePageAddressing()
    ensures PageAddressing(Receive, PageSelect, ColumnSelect)
  {
    forall s, staged: seq<bv8>, k, n | 0 <= k <= k + n <= |staged|
      ensures Receive(s, DataFrame(staged, k, n)) == Store(s, staged[k..k + n])
    {
      assert DataFrame(staged, k, n)[1..] == staged[k..k + n];
    }
    forall s, c | 0 <= c < COL_COUNT
      ensures Run(Receive, s, ColumnSelect(c)) == s.(col := c)
    {
      ColumnSelectSetsColumn(s, c);
    }
    forall s, p | 0 <= p < PAGE_COUNT
      ensures Receive(s, PageSelect(p)) == s.(page := p)
    {
      PageSelectSetsPage(s, p);
    }
  }

  /** `a` then `b` take the controller from `s` through `s1` to `s2`. */
  lemma {:induction false} RunChain(rx: (Screen, Frame) -> Screen, s: Screen, a: seq<Frame>, b: seq<Frame>, s1: Screen, s2: Screen)
    requires Run(rx, s, a) == s1 && Run(rx, s1, b) == s2
    ensures Run(rx, s, a + b) == s2
  {
    RunAppend(rx, s, a, b);
  }

  /** A data frame stores its pixel bytes from the column pointer on. */
  lemma {:induction false} DataFrameStores(rx: (Screen, Frame) -> Screen, sp: int -> Frame, sc: int -> seq<Frame>, s: Screen, staged: seq<bv8>, k: int, n: int)
    requires PageAddressing(rx, sp, sc)
    requires 0 <= k <= k + n <= |staged|
    ensures Run(rx, s, [DataFrame(staged, k, n)]) == Store(s, staged[k..k + n])
  {
    RunOne(rx, s, DataFrame(staged, k, n));
  }

  /** One page's frames store the page row's bytes from its first column on. */
  lemma {:induction false} RowFramesStore(rx: (Screen, Frame) -> Screen, sp: int -> Frame, sc: int -> seq<Frame>, s: Screen, col: int, colEnd: int, staged: seq<bv8>, k: int)
    requires PageAddressing(rx, sp, sc)
    requires 0 <= col <= colEnd < COL_COUNT
    requires 0 <= k && k + (colEnd - col + 1) <= |staged|
    ensures Run(rx, s, RowFrames(sc, col, colEnd, staged, k)) == Store(s.(col := col), staged[k..k + (colEnd - col + 1)])
    decreases colEnd - col
  {
    var n := Min(CHUNK_SIZE, colEnd - col + 1);
    var t := Store(s.(col := col), staged[k..k + n]);
    var u := Store(s.(col := col), staged[k..k + (colEnd - col + 1)]);
    if col + n <= colEnd {
      RowFramesStore(rx, sp, sc, t, col + n, colEnd, staged, k + n);
    }
    RowRestStore(rx, sc, t, col + n, colEnd, staged, k + n, u, s.(col := col), staged[k..k + n]);
    RowChunkStore(rx, sp, sc, s, col, colEnd, staged, k, n, t, u);
  }

  /** What the rest of a row does, given what the first chunk did. */
  lemma {:induction false} RowRestStore(rx: (Screen, Frame) -> Screen, sc: int -> seq<Frame>, t: Screen, col: int, colEnd: int, staged: seq<bv8>, k: int, u: Screen, s0: Screen, first: seq<bv8>)
    requires 0 <= col <= colEnd + 1 <= COL_COUNT
    requires 0 <= k && k + (colEnd - col + 1) <= |staged|
    requires t == Store(s0, first) && t.col == col && |first| <= k
    requires first == staged[k - |first|..k]
    requires u == Store(s0, staged[k - |first|..k + (colEnd - col + 1)])
    requires col <= colEnd ==>
               Run(rx, t, RowFrames(sc, col, colEnd, staged, k))
               == Store(t.(col := col), staged[k..k + (colEnd - col + 1)])
    ensures Run(rx, t, RowFrames(sc, col, colEnd, staged, k)) == u
  {
    assert t.(col := col) == t;
    StoreAppend(s0, first, staged[k..k + (colEnd - col + 1)]);
    assert first + staged[k..k + (colEnd - col + 1)] == staged[k - |first|..k + (colEnd - col + 1)];
  }

  /** The inductive step of `RowFramesStore`: the first chunk, then the rest of the row. */
  lemma {:induction false} RowChunkStore(rx: (Screen, Frame) -> Screen, sp: int -> Frame, sc: int -> seq<Frame>, s: Screen, col: int, colEnd: int, staged: seq<bv8>, k: int, n: int, t: Screen, u: Screen)
    requires PageAddressing(rx, sp, sc)
    requires 0 <= col <= colEnd < COL_COUNT
    requires 0 <= k && k + (colEnd - col + 1) <= |staged|
    requires n == Min(CHUNK_SIZE, colEnd - col + 1) && t == Store(s.(col := col), staged[k..k + n])
    requires Run(rx, t, RowFrames(sc, col + n, colEnd, staged, k + n)) == u
    ensures Run(rx, s, RowFrames(sc, col, colEnd, staged, k)) == u
  {
    var rest := RowFrames(sc, col + n, colEnd, staged, k + n);
    assert RowFrames(sc, col, colEnd, staged, k) == (sc(col) + [DataFrame(staged, k, n)]) + rest;
    DataFrameStores(rx, sp, sc, s.(col := col), staged, k, n);
    RunChain(rx, s, sc(col), [DataFrame(staged, k, n)], s.(col := col), t);
    RunChain(rx, s, sc(col) + [DataFrame(staged, k, n)], rest, t, u);
  }

  /** The display RAM a transfer of pages page..pageEnd leaves: for each
      page in turn, that page's `w` bytes stored from column colStart on. */
  function StoreRows(s: Screen, page: int, pageEnd: int, colStart: int, w: nat, bytes: seq<bv8>): Screen
    requires page <= pageEnd + 1 && |bytes| == Times(pageEnd - page + 1, w)
    decreases pageEnd - page
  {
    if page > pageEnd then s
    else StoreRows(Store(s.(page := page, col := colStart), bytes[..w]), page + 1, pageEnd, colStart, w, bytes[w..])
  }

  /** A region transfer stores the region's staged bytes row by row. */
  lemma {:induction false} RegionFramesStore(rx: (Screen, Frame) -> Screen, sp: int -> Frame, sc: int -> seq<Frame>, s: Screen, page: int, pageEnd: int, colStart: int, colEnd: int, staged: seq<bv8>, k: int)
    requires PageAddressing(rx, sp, sc)
    requires 0 <= page <= pageEnd + 1 <= PAGE_COUNT
    requires 0 <= colStart <= colEnd < COL_COUNT
    requires 0 <= k && k + RegionBytes(page, pageEnd, colStart, colEnd) <= |staged|
    ensures Run(rx, s, RegionFrames(sp, sc, page, pageEnd, colStart, colEnd, staged, k))
            == StoreRows(s, page, pageEnd, colStart, colEnd - colStart + 1, staged[k..k + RegionBytes(page, pageEnd, colStart, colEnd)])
    decreases pageEnd - page
  {
    if page <= pageEnd {
      var w := colEnd - colStart + 1;
      RegionBytesStep(page, pageEnd, colStart, colEnd);
      var t := Store(s.(page := page, col := colStart), staged[k..k + w]);
      RegionFramesStore(rx, sp, sc, t, page + 1, pageEnd, colStart, colEnd, staged, k + w);
      RegionPageStep(rx, sp, sc, s, page, pageEnd, colStart, colEnd, staged, k, t);
    }
  }

  /** The inductive step of `RegionFramesStore`: the first page, from what
      the later pages do. */
  lemma {:induction false} RegionPageStep(rx: (Screen, Frame) -> Screen, sp: int -> Frame, sc: int -> seq<Frame>, s: Screen, page: int, pageEnd: int, colStart: int, colEnd: int, staged: seq<bv8>, k: int, t: Screen)
    requires PageAddressing(rx, sp, sc)
    requires 0 <= page <= pageEnd < PAGE_COUNT
    requires 0 <= colStart <= colEnd < COL_COUNT
    requires 0 <= k && k + RegionBytes(page, pageEnd, colStart, colEnd) <= |staged|
    requires RegionBytes(page, pageEnd, colStart, colEnd) == (colEnd - colStart + 1) + RegionBytes(page + 1, pageEnd, colStart, colEnd)
    requires t == Store(s.(page := page, col := colStart), staged[k..k + (colEnd - colStart + 1)])
    requires Run(rx, t, RegionFrames(sp, sc, page + 1, pageEnd, colStart, colEnd, staged, k + (colEnd - colStart + 1)))
             == StoreRows(t, page + 1, pageEnd, colStart, colEnd - colStart + 1,
                  staged[k + (colEnd - colStart + 1)..k + (colEnd - colStart + 1) + RegionBytes(page + 1, pageEnd, colStart, colEnd)])
    ensures Run(rx, s, RegionFrames(sp, sc, page, pageEnd, colStart, colEnd, staged, k))
            == StoreRows(s, page, pageEnd, colStart, colEnd - colStart + 1, staged[k..k + RegionBytes(page, pageEnd, colStart, colEnd)])
  {
    var w := colEnd - colStart + 1;
    var bytes := staged[k..k + RegionBytes(page, pageEnd, colStart, colEnd)];
    RowFramesStore(rx, sp, sc, s.(page := page), colStart, colEnd, staged, k);
    assert s.(page := page).(col := colStart) == s.(page := page, col := colStart);
    PageRowsStore(s, page, pageEnd, colStart, w, bytes, staged, k, t);
    PageStore(rx, sp, sc, s, page, pageEnd, colStart, colEnd, staged, k, t, StoreRows(s, page, pageEnd, colStart, w, bytes));
  }

  /** The rows a transfer stores: the first page's row, then the later pages' rows. */
  lemma {:induction false} PageRowsStore(s: Screen, page: int, pageEnd: int, colStart: int, w: nat, bytes: seq<bv8>, staged: seq<bv8>, k: int, t: Screen)
    requires page <= pageEnd && |bytes| == Times(pageEnd - page + 1, w)
    requires 0 <= k && k + |bytes| <= |staged| && bytes == staged[k..k + |bytes|]
    requires t == Store(s.(page := page, col := colStart), staged[k..k + w])
    ensures StoreRows(s, page, pageEnd, colStart, w, bytes) == StoreRows(t, page + 1, pageEnd, colStart, w, staged[k + w..k + |bytes|])
  {
    assert bytes[..w] == staged[k..k + w];
    assert bytes[w..] == staged[k + w..k + |bytes|];
  }

  /** The inductive step of `RegionFramesStore`: the first page, then the later ones. */
  lemma {:induction false} PageStore(rx: (Screen, Frame) -> Screen, sp: int -> Frame, sc: int -> seq<Frame>, s: Screen, page: int, pageEnd: int, colStart: int, colEnd: int, staged: seq<bv8>, k: int, t: Screen, u: Screen)
    requires PageAddressing(rx, sp, sc)
    requires 0 <= page <= pageEnd < PAGE_COUNT
    requires 0 <= colStart <= colEnd < COL_COUNT
    requires 0 <= k && k + RegionBytes(page, pageEnd, colStart, colEnd) <= |staged|
    requires RegionBytes(page, pageEnd, colStart, colEnd) == (colEnd - colStart + 1) + RegionBytes(page + 1, pageEnd, colStart, colEnd)
    requires Run(rx, s.(page := page), RowFrames(sc, colStart, colEnd, staged, k)) == t
    requires Run(rx, t, RegionFrames(sp, sc, page + 1, pageEnd, colStart, colEnd, staged, k + (colEnd - colStart + 1))) == u
    ensures Run(rx, s, RegionFrames(sp, sc, page, pageEnd, colStart, colEnd, staged, k)) == u
  {
    var row := RowFrames(sc, colStart, colEnd, staged, k);
    var rest := RegionFrames(sp, sc, page + 1, pageEnd, colStart, colEnd, staged, k + (colEnd - colStart + 1));
    RegionFramesStep(sp, sc, page, pageEnd, colStart, colEnd, staged, k);
    RunOne(rx, s, sp(page));
    RunChain(rx, s.(page := page), row, rest, t, u);
    RunChain(rx, s, [sp(page)], row + rest, s.(page := page), u);
  }

  /** Byte Times(r, w) + c of what the rows store lands in page page + r, column colStart + c. */
  lemma {:induction false} StoreRowsCell(s: Screen, page: int, pageEnd: int, colStart: int, w: nat, bytes: seq<bv8>, r: int, c: int, at: int)
    requires page <= pageEnd + 1 && |bytes| == Times(pageEnd - page + 1, w)
    requires 0 <= r <= pageEnd - page && 0 <= c < w && at == Times(r, w)
    ensures at + c < |bytes|
    ensures (page + r, colStart + c) in StoreRows(s, page, pageEnd, colStart, w, bytes).ram
    ensures StoreRows(s, page, pageEnd, colStart, w, bytes).ram[(page + r, colStart + c)] == bytes[at + c]
    decreases r
  {
    var t := Store(s.(page := page, col := colStart), bytes[..w]);
    if r == 0 {
      StoreCell(s.(page := page, col := colStart), bytes[..w], c);
      StoreRowsKeeps(t, page + 1, pageEnd, colStart, w, bytes[w..], (page, colStart + c));
    } else {
      StoreRowsCell(t, page + 1, pageEnd, colStart, w, bytes[w..], r - 1, c, at - w);
    }
  }

  /** The rows store nothing outside pages page..pageEnd and columns colStart..colStart + w - 1. */
  lemma {:induction false} StoreRowsKeeps(s: Screen, page: int, pageEnd: int, colStart: int, w: nat, bytes: seq<bv8>, key: (int, int))
    requires page <= pageEnd + 1 && |bytes| == Times(pageEnd - page + 1, w)
    requires key.0 < page || key.0 > pageEnd || key.1 < colStart || key.1 >= colStart + w
    ensures (key in StoreRows(s, page, pageEnd, colStart, w, bytes).ram) == (key in s.ram)
    ensures key in s.ram ==> StoreRows(s, page, pageEnd, colStart, w, bytes).ram[key] == s.ram[key]
    decreases pageEnd - page
  {
    if page <= pageEnd {
      var t := Store(s.(page := page, col := colStart), bytes[..w]);
      StoreKeeps(s.(page := page, col := colStart), bytes[..w], key);
      StoreRowsKeeps(t, page + 1, pageEnd, colStart, w, bytes[w..], key);
    }
  }

  /** A transfer of pages first..last and columns x..x + width - 1 over the
      bytes `d` staged from index 1 on stores `d` row by row. */
  lemma {:induction false} BandStores(rx: (Screen, Frame) -> Screen, sp: int -> Frame, sc: int -> seq<Frame>, s: Screen, first: int, last: int, x: int, width: int, staged: seq<bv8>, d: seq<bv8>)
    requires PageAddressing(rx, sp, sc)
    requires 0 <= first <= last < PAGE_COUNT && 0 <= x <= x + width - 1 < COL_COUNT
    requires 1 + RegionBytes(first, last, x, x + width - 1) <= |staged|
    requires staged[1..1 + RegionBytes(first, last, x, x + width - 1)] == d
    ensures |d| == Times(last - first + 1, width)
    ensures Run(rx, s, RegionFrames(sp, sc, first, last, x, x + width - 1, staged, 1)) == StoreRows(s, first, last, x, width, d)
  {
    RegionFramesStore(rx, sp, sc, s, first, last, x, x + width - 1, staged, 1);
    assert x + width - 1 - x + 1 == width;
  }

  /** A region write leaves the display RAM as its rows store the caller's data. */
  lemma {:induction false} RegionWriteStores(rx: (Screen, Frame) -> Screen, s: Screen, b: seq<bv8>, x: int, y8x: int, width: int, height8x: int, d: seq<bv8>)
    requires PageAddressing(rx, PageSelect, ColumnSelect)
    requires Covers(b, x, y8x, width, height8x, d)
    ensures width > 0 && FirstPage(y8x) <= LastPage(y8x, height8x)
    ensures |d| == Times(LastPage(y8x, height8x) - FirstPage(y8x) + 1, width)
    ensures Run(rx, s, RegionWrite(b, x, y8x, width, height8x, d)) == StoreRows(s, FirstPage(y8x), LastPage(y8x, height8x), x, width, d)
  {
    var staged := Staged(b, d);
    RegionWriteTransfer(b, x, y8x, width, height8x, d, staged);
    assert staged[1..1 + |d|] == d;
    BandStores(rx, PageSelect, ColumnSelect, s, FirstPage(y8x), LastPage(y8x, height8x), x, width, staged, d);
  }

  /** The bitmap layout: byte r * width + c of the data, the byte of the
      8 rows y8x + 8 * r .. y8x + 8 * r + 7 in column x + c, lands in display
      RAM at page y8x / 8 + r, column x + c, on every controller in page
      addressing mode (the modelled one is, by `ReceivePageAddressing`). */
  lemma {:induction false} RegionWritePixel(rx: (Screen, Frame) -> Screen, s: Screen, b: seq<bv8>, x: int, y8x: int, width: int, height8x: int, d: seq<bv8>, r: int, c: int)
    requires PageAddressing(rx, PageSelect, ColumnSelect)
    requires Covers(b, x, y8x, width, height8x, d)
    requires 0 <= r < height8x / BITS_PER_PAGE && 0 <= c < width
    ensures 0 <= r * width + c < |d|
    ensures (y8x / BITS_PER_PAGE + r, x + c) in Run(rx, s, RegionWrite(b, x, y8x, width, height8x, d)).ram
    ensures Run(rx, s, RegionWrite(b, x, y8x, width, height8x, d)).ram[(y8x / BITS_PER_PAGE + r, x + c)] == d[r * width + c]
  {
    RegionWriteStores(rx, s, b, x, y8x, width, height8x, d);
    ValidRegionFitsBuffer(x, y8x, width, height8x);
    RowsPixel(s, FirstPage(y8x), LastPage(y8x, height8x), x, width, d, r, c);
  }

  /** StoreRowsCell with the byte's index as a product. */
  lemma {:induction false} RowsPixel(s: Screen, first: int, last: int, x: int, width: nat, d: seq<bv8>, r: int, c: int)
    requires first <= last && |d| == Times(last - first + 1, width)
    requires 0 <= r <= last - first && 0 <= c < width
    ensures 0 <= r * width + c < |d|
    ensures (first + r, x + c) in StoreRows(s, first, last, x, width, d).ram
    ensures StoreRows(s, first, last, x, width, d).ram[(first + r, x + c)] == d[r * width + c]
  {
    TimesProduct(r, width);
    StoreRowsCell(s, first, last, x, width, d, r, c, r * width);
  }

  /** A region write changes no display RAM cell outside its pages and
      columns, on every controller in page addressing mode. */
  lemma {:induction false} RegionWriteOutside(rx: (Screen, Frame) -> Screen, s: Screen, b: seq<bv8>, x: int, y8x: int, width: int, height8x: int, d: seq<bv8>, key: (int, int))
    requires PageAddressing(rx, PageSelect, ColumnSelect)
    requires Covers(b, x, y8x, width, height8x, d)
    requires key.0 < y8x / BITS_PER_PAGE || key.0 >= (y8x + height8x) / BITS_PER_PAGE || key.1 < x || key.1 >= x + width
    ensures (key in Run(rx, s, RegionWrite(b, x, y8x, width, height8x, d)).ram) == (key in s.ram)
    ensures key in s.ram ==> Run(rx, s, RegionWrite(b, x, y8x, width, height8x, d)).ram[key] == s.ram[key]
  {
    RegionWriteStores(rx, s, b, x, y8x, width, height8x, d);
    StoreRowsKeeps(s, FirstPage(y8x), LastPage(y8x, height8x), x, width, d, key);
  }
}

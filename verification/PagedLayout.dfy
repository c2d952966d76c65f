/**
 How the builder lays out a message whose container sizes are not known yet: records of
 open containers and encoded bytes, in pages that are never moved. A page keeps the bytes
 used so far, its header, padding and records included. Positions are page and offset.
 */
module PagedLayout {
  import opened Bits

  const MIN_BUFFER: nat := 32

  /** Sizes of a page, of its header, of a record, and the alignment of records. */
  datatype Geometry = Geometry(page: nat, header: nat, record: nat, align: nat)

  /** What the source checks of the sizes. */
  predicate Checked(g: Geometry) {
    1 <= g.align <= MIN_BUFFER && g.header + g.record + MIN_BUFFER <= g.page
  }

  /** No record fits on a page that is too full to be written to. */
  predicate NoRoomLeft(g: Geometry)
    requires Checked(g)
  {
    Align(g, g.page - MIN_BUFFER + 1) + g.record > g.page
  }

  predicate Usable(g: Geometry) {
    Checked(g) && NoRoomLeft(g)
  }

  datatype Pos = Pos(page: nat, off: nat)

  type Pages = seq<seq<byte>>

  function Align(g: Geometry, n: nat): (r: nat)
    requires g.align >= 1
    ensures n <= r < n + g.align
  {
    n + g.align - 1 - (n + g.align - 1) % g.align
  }

  /** Where the record after a position lies: aligned on the same page, or first on the next one. */
  function Next(g: Geometry, p: Pos): Pos
    requires g.align >= 1
  {
    if Align(g, p.off) + g.record <= g.page then Pos(p.page, Align(g, p.off)) else Pos(p.page + 1, Align(g, g.header))
  }

  /** Body of a record and where it ends. */
  datatype Seg = Seg(at: Pos, body: seq<byte>, end: Pos)

  /** Reading `body` from a position, page after page, ends exactly at `end`. */
  predicate Spans(g: Geometry, pages: Pages, from: Pos, body: seq<byte>, end: Pos)
    decreases |pages| - from.page
  {
    from.page < |pages| && from.off <= |pages[from.page]| &&
    var page := pages[from.page];
    if from.off + |body| <= |page| then
      page[from.off..from.off + |body|] == body && end == Pos(from.page, from.off + |body|)
    else
      var n := |page| - from.off;
      page[from.off..] == body[..n] && Spans(g, pages, Pos(from.page + 1, g.header), body[n..], end)
  }

  /** The last position is the end of the last page, or the end of the page before a fresh last page. */
  predicate AtTail(g: Geometry, pages: Pages, end: Pos) {
    var last := |pages| - 1;
    || (end.page == last && end.off == |pages[last]|)
    || (end.page + 1 == last && end.off == |pages[end.page]| && |pages[last]| == g.header && end.off + MIN_BUFFER > g.page)
  }

  predicate PagesOk(g: Geometry, pages: Pages) {
    forall i :: 0 <= i < |pages| ==> g.header <= |pages[i]| <= g.page
  }

  function Start(g: Geometry, s: Seg): Pos {
    Pos(s.at.page, s.at.off + g.record)
  }

  predicate SegOk(g: Geometry, pages: Pages, s: Seg) {
    Spans(g, pages, Start(g, s), s.body, s.end)
  }

  /** Records and bodies follow each other in reading order up to the end of the pages. */
  predicate Laid(g: Geometry, pages: Pages, segs: seq<Seg>)
    requires Usable(g)
  {
    && segs != [] && PagesOk(g, pages)
    && segs[0].at == Pos(0, Align(g, g.header))
    && (forall i :: 0 <= i < |segs| ==> SegOk(g, pages, segs[i]))
    && (forall i :: 0 <= i < |segs| - 1 ==> segs[i + 1].at == Next(g, segs[i].end))
    && AtTail(g, pages, segs[|segs| - 1].end)
  }

  /** Pages only grow at the end of the last one, and by new pages. */
  predicate Grown(pages: Pages, pages': Pages) {
    && 0 < |pages| <= |pages'|
    && (forall i :: 0 <= i < |pages| - 1 ==> pages'[i] == pages[i])
    && pages[|pages| - 1] <= pages'[|pages| - 1]
  }

  lemma {:induction false} SpansGrown(g: Geometry, pages: Pages, pages': Pages, from: Pos, body: seq<byte>, end: Pos)
    requires Spans(g, pages, from, body, end) && Grown(pages, pages')
    ensures Spans(g, pages', from, body, end)
    decreases |pages| - from.page
  {
    var page := pages[from.page];
    if from.off + |body| <= |page| {
      assert pages'[from.page][from.off..from.off + |body|] == page[from.off..from.off + |body|];
    } else {
      SpansGrown(g, pages, pages', Pos(from.page + 1, g.header), body[|page| - from.off..], end);
      assert from.page + 1 < |pages|;
    }
  }

  lemma {:induction false} SpansOrder(g: Geometry, pages: Pages, from: Pos, body: seq<byte>, end: Pos)
    requires Spans(g, pages, from, body, end)
    ensures from.page <= end.page < |pages| && (from.page == end.page ==> from.off <= end.off) && end.off <= |pages[end.page]|
    decreases |pages| - from.page
  {
    if from.off + |body| > |pages[from.page]| {
      SpansOrder(g, pages, Pos(from.page + 1, g.header), body[|pages[from.page]| - from.off..], end);
    }
  }

  /** Bytes written at the end of the last page continue the body that ends there. */
  lemma {:induction false} SpansAppend(g: Geometry, pages: Pages, pages': Pages, from: Pos, body: seq<byte>, end: Pos, x: seq<byte>)
    requires Spans(g, pages, from, body, end) && end == Pos(|pages| - 1, |pages[|pages| - 1]|)
    requires pages' == pages[|pages| - 1 := pages[|pages| - 1] + x]
    ensures Spans(g, pages', from, body + x, Pos(end.page, end.off + |x|))
    decreases |pages| - from.page
  {
    var page := pages[from.page];
    if from.page == |pages| - 1 {
      SpansOrder(g, pages, from, body, end);
      assert from.off + |body| == |page|;
      assert (page + x)[from.off..from.off + |body + x|] == body + x;
    } else {
      SpansOrder(g, pages, from, body, end);
      var n := |page| - from.off;
      SpansAppend(g, pages, pages', Pos(from.page + 1, g.header), body[n..], end, x);
      assert (body + x)[..n] == body[..n] && (body + x)[n..] == body[n..] + x;
    }
  }

  /** Bytes written to a fresh page continue the body that ends on the page before it. */
  lemma {:induction false} SpansOnto(g: Geometry, pages: Pages, pages': Pages, from: Pos, body: seq<byte>, end: Pos, x: seq<byte>)
    requires Spans(g, pages, from, body, end) && end.page + 2 == |pages| && end.off == |pages[end.page]| && x != []
    requires |pages[end.page + 1]| == g.header && pages' == pages[end.page + 1 := pages[end.page + 1] + x]
    ensures Spans(g, pages', from, body + x, Pos(end.page + 1, g.header + |x|))
    decreases |pages| - from.page
  {
    var page := pages[from.page];
    SpansOrder(g, pages, from, body, end);
    var n := |page| - from.off;
    assert pages'[from.page] == page;
    if from.page == end.page {
      if from.off + |body| > |page| {
        SpansOrder(g, pages, Pos(from.page + 1, g.header), body[n..], end);
      }
      assert from.off + |body| == |page| && n == |body|;
      assert (body + x)[..n] == body && (body + x)[n..] == x;
      assert (pages[end.page + 1] + x)[g.header..] == x;
      assert Spans(g, pages', Pos(from.page + 1, g.header), x, Pos(end.page + 1, g.header + |x|));
    } else {
      SpansOnto(g, pages, pages', Pos(from.page + 1, g.header), body[n..], end, x);
      assert (body + x)[..n] == body[..n] && (body + x)[n..] == body[n..] + x;
    }
  }

  predicate Before(a: Pos, b: Pos) {
    a.page < b.page || (a.page == b.page && a.off < b.off)
  }

  lemma NextIsAfter(g: Geometry, pages: Pages, s: Seg)
    requires Usable(g) && SegOk(g, pages, s)
    ensures Before(s.at, Next(g, s.end)) && s.at.page < |pages| && s.at.off + g.record <= |pages[s.at.page]|
  {
    SpansOrder(g, pages, Start(g, s), s.body, s.end);
  }

  /** Records lie at increasing positions, so no two share one. */
  lemma {:induction false} LaidOrder(g: Geometry, pages: Pages, segs: seq<Seg>, i: nat, j: nat)
    requires Usable(g) && Laid(g, pages, segs) && i < j <= |segs|
    ensures Before(segs[i].at, if j < |segs| then segs[j].at else Next(g, segs[j - 1].end))
    decreases j
  {
    assert SegOk(g, pages, segs[j - 1]);
    NextIsAfter(g, pages, segs[j - 1]);
    if i < j - 1 {
      LaidOrder(g, pages, segs, i, j - 1);
    }
  }

  lemma SegsGrown(g: Geometry, pages: Pages, pages': Pages, segs: seq<Seg>)
    requires Usable(g) && Laid(g, pages, segs) && Grown(pages, pages')
    ensures forall i :: 0 <= i < |segs| ==> SegOk(g, pages', segs[i])
  {
    hide Spans, Grown;
    forall i | 0 <= i < |segs|
      ensures SegOk(g, pages', segs[i])
    {
      SpansGrown(g, pages, pages', Start(g, segs[i]), segs[i].body, segs[i].end);
    }
  }

  // ---- the three things that happen to the pages ----

  function WithBytes(pages: Pages, x: seq<byte>): Pages
    requires pages != []
  {
    pages[|pages| - 1 := pages[|pages| - 1] + x]
  }

  /** The last body after more bytes were written to the last page. */
  function Longer(g: Geometry, pages: Pages, segs: seq<Seg>, x: seq<byte>): (r: seq<Seg>)
    requires segs != [] && pages != []
    ensures |r| == |segs|
  {
    var s := segs[|segs| - 1];
    if x == [] then segs
    else segs[|segs| - 1 := Seg(s.at, s.body + x, Pos(|pages| - 1, |pages[|pages| - 1]| + |x|))]
  }

  lemma LaidBytes(g: Geometry, pages: Pages, segs: seq<Seg>, x: seq<byte>)
    requires Usable(g) && Laid(g, pages, segs) && pages != [] && |pages[|pages| - 1]| + |x| <= g.page
    ensures Laid(g, WithBytes(pages, x), Longer(g, pages, segs, x))
  {
    hide Spans;
    var n, last := |segs| - 1, |pages| - 1;
    var s, pages', segs' := segs[n], WithBytes(pages, x), Longer(g, pages, segs, x);
    if x == [] {
      assert pages[last] + x == pages[last];
      assert pages' == pages;
    } else {
      SegsGrown(g, pages, pages', segs);
      assert SegOk(g, pages, s);
      if s.end.page == last {
        SpansAppend(g, pages, pages', Start(g, s), s.body, s.end, x);
      } else {
        SpansOnto(g, pages, pages', Start(g, s), s.body, s.end, x);
      }
    }
  }

  /** A page is added when the last one has less room than the least buffer. */
  lemma LaidPage(g: Geometry, pages: Pages, segs: seq<Seg>, header: seq<byte>)
    requires Usable(g) && Laid(g, pages, segs) && pages != [] && |header| == g.header
    requires |pages[|pages| - 1]| + MIN_BUFFER > g.page
    ensures Laid(g, pages + [header], segs)
  {
    hide Spans;
    SegsGrown(g, pages, pages + [header], segs);
  }

  /** The pages with a new record, and with a fresh page behind it when little room is left. */
  function WithRecord(g: Geometry, pages: Pages, header: seq<byte>, record: seq<byte>): Pages
    requires Usable(g) && pages != []
  {
    var last := |pages| - 1;
    if Align(g, |pages[last]|) + g.record <= g.page
    then pages[last := Padded(g, pages[last]) + record]
    else pages + [Padded(g, header) + record]
  }

  function Padded(g: Geometry, page: seq<byte>): (r: seq<byte>)
    requires g.align >= 1
    ensures page <= r && |r| == Align(g, |page|)
  {
    page + seq(Align(g, |page|) - |page|, _ => 0)
  }

  /** The record lands where a reader will look for it. */
  lemma LaidRecord(g: Geometry, pages: Pages, segs: seq<Seg>, header: seq<byte>, record: seq<byte>)
    requires Usable(g) && Laid(g, pages, segs) && pages != [] && |header| == g.header && |record| == g.record
    ensures var at := Next(g, segs[|segs| - 1].end);
            var pages' := WithRecord(g, pages, header, record);
            && at == Pos(|pages'| - 1, |pages'[|pages'| - 1]| - g.record)
            && Laid(g, pages', segs + [Seg(at, [], Pos(at.page, at.off + g.record))])
  {
    hide Spans;
    var n, last := |segs| - 1, |pages| - 1;
    var pages' := WithRecord(g, pages, header, record);
    var at := Next(g, segs[n].end);
    var segs' := segs + [Seg(at, [], Pos(at.page, at.off + g.record))];
    SegsGrown(g, pages, pages', segs);
    TailIsFull(g, pages, segs[n].end);
    assert at == Pos(|pages'| - 1, |pages'[|pages'| - 1]| - g.record);
    EmptySpans(g, pages', Pos(at.page, at.off + g.record));
    forall i | 0 <= i < |segs'|
      ensures SegOk(g, pages', segs'[i])
    {
    }
  }

  lemma EmptySpans(g: Geometry, pages: Pages, at: Pos)
    requires at.page < |pages| && at.off <= |pages[at.page]|
    ensures Spans(g, pages, at, [], at)
  {
  }

  /** The first record of a message. */
  lemma LaidFirst(g: Geometry, header: seq<byte>, record: seq<byte>)
    requires Usable(g) && |header| == g.header && |record| == g.record
    ensures var at := Pos(0, Align(g, g.header));
            var pages := WithRecord(g, [header], header, record);
            |pages| == 1 && |pages[0]| == at.off + g.record
            && Laid(g, pages, [Seg(at, [], Pos(0, at.off + g.record))])
  {
    var at := Pos(0, Align(g, g.header));
    EmptySpans(g, WithRecord(g, [header], header, record), Pos(0, at.off + g.record));
  }

  // ---- when readers find what was written ----

  lemma AlignMono(g: Geometry, a: nat, b: nat)
    requires g.align >= 1 && a <= b
    ensures Align(g, a) <= Align(g, b)
  {
    AlignIsMultiple(g, a);
    AlignIsMultiple(g, b);
    hide Align;
    var d := g.align;
    MultiplesMono(d, a + d - 1, b + d - 1);
  }

  lemma AlignIsMultiple(g: Geometry, n: nat)
    requires g.align >= 1
    ensures Align(g, n) == g.align * ((n + g.align - 1) / g.align)
  {
  }

  lemma MultiplesMono(d: nat, x: nat, y: nat)
    requires d >= 1 && x <= y
    ensures d * (x / d) <= d * (y / d)
  {
    var q, r := x / d, y / d;
    MulSub(d, q, r);
    if r < q {
      MulAtLeast(d, q - r);
    }
  }

  /** Records at least as large as the least buffer, as on 64-bit hosts, are always found. */
  lemma LargeRecordsAreFound(g: Geometry)
    requires Checked(g) && g.record >= MIN_BUFFER
    ensures Usable(g)
  {
  }

  /** Where the builder puts the next record. */
  function Place(g: Geometry, pages: Pages): Pos
    requires g.align >= 1 && pages != []
  {
    var last := |pages| - 1;
    if Align(g, |pages[last]|) + g.record <= g.page then Pos(last, Align(g, |pages[last]|))
    else Pos(last + 1, Align(g, g.header))
  }

  /** Readers look for a record where the builder puts it, in every state, exactly for usable sizes. */
  lemma ReadersFindRecords(g: Geometry)
    requires Checked(g)
    ensures Usable(g) <==>
            forall pages, end :: pages != [] && PagesOk(g, pages) && AtTail(g, pages, end) ==> Place(g, pages) == Next(g, end)
  {
    if Usable(g) {
      forall pages: Pages, end | pages != [] && PagesOk(g, pages) && AtTail(g, pages, end)
        ensures Place(g, pages) == Next(g, end)
      {
        TailIsFull(g, pages, end);
      }
    } else {
      var full: seq<byte>, header: seq<byte> := seq(g.page - MIN_BUFFER + 1, _ => 0), seq(g.header, _ => 0);
      var pages := [full, header];
      assert AtTail(g, pages, Pos(0, |full|)) && Place(g, pages).page == 1 && Next(g, Pos(0, |full|)).page == 0;
    }
  }

  lemma TailIsFull(g: Geometry, pages: Pages, end: Pos)
    requires Usable(g) && pages != [] && PagesOk(g, pages) && AtTail(g, pages, end)
    ensures Place(g, pages) == Next(g, end)
  {
    if end.page < |pages| - 1 {
      AlignMono(g, g.page - MIN_BUFFER + 1, end.off);
    }
  }
}

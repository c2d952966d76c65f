/**
 The message builder: containers whose sizes become known only when they are completed.
 Open containers are records between the encoded bytes in the pages; completing the
 outermost one walks the pages and writes the message. For every value, the walk writes
 exactly the value's canonical encoding.
 */
module Builder {
  import opened Bits
  import opened Msgpack
  import opened PagedLayout
  import Writer

  /** A page of memory: bytes written so far, and how many of them are accounted for. */
  datatype Page = Page(mem: seq<byte>, used: nat)

  datatype Ref = None | At(pos: Pos)

  /** A container under construction: bytes up to the next record, elements or pairs so far. */
  datatype Record = Record(parent: Ref, bytes: nat, count: nat, isMap: bool, keyNeedsValue: bool)

  function Mems(pages: seq<Page>): (r: Pages)
    ensures |r| == |pages|
  {
    seq(|pages|, i requires 0 <= i < |pages| => pages[i].mem)
  }

  // ---- the stream of tags and bytes ----

  datatype Tok = Tag(at: Pos) | Raw(b: byte)

  function Raws(x: seq<byte>): (r: seq<Tok>)
    ensures |r| == |x|
  {
    seq(|x|, i requires 0 <= i < |x| => Raw(x[i]))
  }

  function Stream(segs: seq<Seg>): seq<Tok> {
    if segs == [] then []
    else
      var n := |segs| - 1;
      Stream(segs[..n]) + ([Tag(segs[n].at)] + Raws(segs[n].body))
  }

  function TagBytes(r: Record): seq<byte> {
    if r.isMap then MapTag(r.count) else ArrayTag(r.count)
  }

  /** The stream as bytes, once the records hold their final counts. */
  function Render(builds: map<Pos, Record>, toks: seq<Tok>): seq<byte> {
    if toks == [] then []
    else
      (match toks[0]
       case Tag(at) => if at in builds then TagBytes(builds[at]) else []
       case Raw(b) => [b])
      + Render(builds, toks[1..])
  }

  lemma {:induction false} RenderConcat(builds: map<Pos, Record>, s: seq<Tok>, t: seq<Tok>)
    ensures Render(builds, s + t) == Render(builds, s) + Render(builds, t)
    decreases |s|
  {
    hide TagBytes;
    if s == [] {
      assert s + t == t;
    } else {
      assert (s + t)[1..] == s[1..] + t;
      RenderConcat(builds, s[1..], t);
    }
  }

  lemma {:induction false} RenderRaws(builds: map<Pos, Record>, x: seq<byte>)
    ensures Render(builds, Raws(x)) == x
    decreases |x|
  {
    if x != [] {
      assert Raws(x)[1..] == Raws(x[1..]);
      RenderRaws(builds, x[1..]);
      assert [x[0]] + x[1..] == x;
    }
  }

  lemma {:induction false} RenderSame(b: map<Pos, Record>, b': map<Pos, Record>, s: seq<Tok>)
    requires forall i :: 0 <= i < |s| && s[i].Tag? ==> s[i].at in b && s[i].at in b' && Shape(b[s[i].at]) == Shape(b'[s[i].at])
    ensures Render(b, s) == Render(b', s)
    decreases |s|
  {
    if s != [] {
      RenderSame(b, b', s[1..]);
      if s[0].Tag? {
        assert TagBytes(b[s[0].at]) == TagBytes(Shape(b[s[0].at])) == TagBytes(b'[s[0].at]);
      }
    }
  }

  lemma StreamLonger(g: Geometry, pages: Pages, segs: seq<Seg>, x: seq<byte>)
    requires segs != [] && pages != []
    ensures Stream(Longer(g, pages, segs, x)) == Stream(segs) + Raws(x)
  {
    var n := |segs| - 1;
    var r := Longer(g, pages, segs, x);
    assert r[..n] == segs[..n];
    if x != [] {
      assert Raws(segs[n].body + x) == Raws(segs[n].body) + Raws(x);
    }
  }

  lemma StreamRecord(segs: seq<Seg>, s: Seg)
    requires s.body == []
    ensures Stream(segs + [s]) == Stream(segs) + [Tag(s.at)]
  {
    assert (segs + [s])[..|segs|] == segs;
    assert [Tag(s.at)] + Raws([]) == [Tag(s.at)];
  }

  // ---- records ----

  /** A record without the part that only says how many bytes follow it. */
  function Shape(r: Record): Record {
    r.(bytes := 0)
  }

  function Elements(r: Record): nat {
    if r.isMap then 2 * r.count + (if r.keyNeedsValue then 1 else 0) else r.count
  }

  /** The record after one more element was written into its container. */
  function Bumped(r: Record): Record {
    if !r.isMap then r.(count := (r.count + 1) % TWO32)
    else if r.keyNeedsValue then r.(keyNeedsValue := false, count := (r.count + 1) % TWO32)
    else r.(keyNeedsValue := true)
  }

  predicate SameShapes(b: map<Pos, Record>, b': map<Pos, Record>) {
    b.Keys == b'.Keys && forall p :: p in b ==> Shape(b'[p]) == Shape(b[p])
  }

  /** One element was added to the container at `at`; other containers that were there are as before. */
  predicate Added(b: map<Pos, Record>, b': map<Pos, Record>, at: Pos)
    requires at in b
  {
    forall p :: p in b ==> p in b' && Shape(b'[p]) == Shape(if p == at then Bumped(b[p]) else b[p])
  }

  /** Full pages are accounted for; the last one up to the bytes written since. */
  predicate PagesUsed(g: Geometry, pages: seq<Page>) {
    && pages != [] && (forall i :: 0 <= i < |pages| - 1 ==> pages[i].used == |pages[i].mem|)
    && g.header <= pages[|pages| - 1].used <= |pages[|pages| - 1].mem|
  }

  function Unapplied(pages: seq<Page>): int
    requires pages != []
  {
    |pages[|pages| - 1].mem| - pages[|pages| - 1].used
  }

  /** Every record is where its segment starts and knows the length of the body behind it. */
  predicate Recorded(segs: seq<Seg>, builds: map<Pos, Record>, unapplied: int) {
    && segs != []
    && (forall i :: 0 <= i < |segs| ==> segs[i].at in builds)
    && (forall p :: p in builds ==> HasSeg(segs, p))
    && (forall i :: 0 <= i < |segs| - 1 ==> builds[segs[i].at].bytes == |segs[i].body|)
    && builds[segs[|segs| - 1].at].bytes + unapplied == |segs[|segs| - 1].body|
    && (forall p :: p in builds && builds[p].parent.At? ==> builds[p].parent.pos in builds)
  }

  predicate HasSeg(segs: seq<Seg>, p: Pos) {
    exists i :: 0 <= i < |segs| && segs[i].at == p
  }

  predicate Linked(g: Geometry, pages: seq<Page>, segs: seq<Seg>, builds: map<Pos, Record>)
    requires Usable(g)
  {
    PagesUsed(g, pages) && Laid(g, Mems(pages), segs) && Recorded(segs, builds, Unapplied(pages))
  }

  lemma LinkedBasics(g: Geometry, pages: seq<Page>, segs: seq<Seg>, builds: map<Pos, Record>)
    requires Usable(g) && Linked(g, pages, segs, builds)
    ensures pages != [] && segs != [] && segs[|segs| - 1].at in builds
    ensures var p := pages[|pages| - 1]; g.header <= p.used <= |p.mem| <= g.page
  {
    hide Laid, Recorded;
    LaidNotEmpty(g, Mems(pages), segs);
    assert |Mems(pages)[|pages| - 1]| <= g.page;
    LatestRecorded(segs, builds, Unapplied(pages));
  }

  lemma LatestRecorded(segs: seq<Seg>, builds: map<Pos, Record>, unapplied: int)
    requires Recorded(segs, builds, unapplied)
    ensures segs != [] && segs[|segs| - 1].at in builds
  {
  }

  // ---- reading the pages back ----

  /** What the walk reads: bytes and where it stops, or nothing when it leaves the pages or meets no record. */
  datatype Reading = Lost | Read(bytes: seq<byte>, end: Pos)

  /** Bytes from a position on, page after page. */
  function ReadBody(g: Geometry, pages: seq<Page>, from: Pos, n: nat): (r: Reading)
    ensures r.Read? ==> |r.bytes| == n && from.page <= r.end.page
    ensures r.Read? && from.page == r.end.page ==> from.off <= r.end.off
    ensures r.Read? && from.page < |pages| ==> r.end.page < |pages|
    decreases |pages| - from.page
  {
    if n == 0 then Read([], from)
    else if from.page >= |pages| || pages[from.page].used > |pages[from.page].mem| then Lost
    else
      var p := pages[from.page];
      if from.off + n <= p.used then Read(p.mem[from.off..from.off + n], Pos(from.page, from.off + n))
      else
        var x := if from.off < p.used then p.mem[from.off..p.used] else [];
        match ReadBody(g, pages, Pos(from.page + 1, g.header), n - |x|)
        case Lost => Lost
        case Read(rest, end) => Read(x + rest, end)
  }

  /** Records and what follows them, from the record at a position on. */
  function ReadFrom(g: Geometry, pages: seq<Page>, builds: map<Pos, Record>, at: Pos): Reading
    requires g.align >= 1 && g.record >= 1
    decreases |pages| - at.page, g.page - at.off
  {
    if at !in builds || at.page >= |pages| then Lost
    else
      match ReadBody(g, pages, Pos(at.page, at.off + g.record), builds[at].bytes)
      case Lost => Lost
      case Read(body, end) =>
        var next := Next(g, end);
        if next.page >= |pages| || next.off + g.record > pages[next.page].used then Read(TagBytes(builds[at]) + body, next)
        else
          match ReadFrom(g, pages, builds, next)
          case Lost => Lost
          case Read(rest, stop) => Read(TagBytes(builds[at]) + body + rest, stop)
  }

  /** The message that is read out of the pages, wherever the records lie. */
  function ReadOut(g: Geometry, pages: seq<Page>, builds: map<Pos, Record>): Reading
    requires g.align >= 1 && g.record >= 1
  {
    ReadFrom(g, pages, builds, Pos(0, Align(g, g.header)))
  }

  class Builder {
    const g: Geometry
    const sink: Writer.Sink
    var pages: seq<Page>
    var builds: map<Pos, Record>
    var current: Ref
    var latest: Ref
    ghost var segs: seq<Seg>

    ghost predicate Valid()
      reads this
    {
      && Usable(g) && Linked(g, pages, segs, builds)
      && current.At? && current.pos in builds
      && latest == At(segs[|segs| - 1].at)
    }

    ghost predicate Applied()
      reads this
    {
      pages != [] && pages[|pages| - 1].used == |pages[|pages| - 1].mem|
    }

    /** Only bytes were added since the given state. */
    ghost predicate Wrote(b: map<Pos, Record>, s: seq<Seg>, c: Ref, x: seq<byte>)
      reads this
    {
      Valid() && current == c && SameShapes(b, builds) && Stream(segs) == Stream(s) + Raws(x)
    }

    constructor (g: Geometry, sink: Writer.Sink)
      requires Usable(g)
      ensures this.g == g && this.sink == sink && current == None
    {
      this.g, this.sink := g, sink;
      pages, builds, current, latest, segs := [], map[], None, None, [];
    }

    function Header(): (h: seq<byte>)
      ensures |h| == g.header
    {
      seq(g.header, _ => 0)
    }

    function Left(): int
      reads this
      requires pages != []
    {
      g.page - |pages[|pages| - 1].mem|
    }

    /** Accounts for the bytes written since the last time. */
    method ApplyWrites()
      requires Valid()
      modifies this`pages, this`builds
      ensures Valid() && Applied() && Mems(pages) == old(Mems(pages)) && SameShapes(old(builds), builds)
      ensures Left() == old(Left())
    {
      hide Laid, Recorded, Mems;
      LinkedBasics(g, pages, segs, builds);
      var last := |pages| - 1;
      var written := |pages[last].mem| - pages[last].used;
      ghost var oldPages, oldBuilds := pages, builds;
      pages := pages[last := pages[last].(used := pages[last].used + written)];
      var r := builds[latest.pos];
      builds := builds[latest.pos := r.(bytes := r.bytes + written)];
      AppliedLinked(g, oldPages, pages, segs, oldBuilds, builds);
    }

    method AddPage()
      modifies this`pages
      ensures pages == old(pages) + [Page(Header(), g.header)]
    {
      pages := pages + [Page(Header(), g.header)];
    }

    /** Turns to a fresh page when the current one is too full. */
    method Flush()
      requires Valid() && Left() < MIN_BUFFER
      modifies this`pages, this`builds
      ensures Valid() && Applied() && Left() >= MIN_BUFFER && SameShapes(old(builds), builds)
    {
      hide Laid, Recorded, Mems;
      ApplyWrites();
      ghost var before := pages;
      AddPage();
      PageLinked(g, before, pages, segs, builds, Header());
    }

    /** Bytes behind the last ones, on the same page. */
    method Append(x: seq<byte>)
      requires Valid() && |x| <= Left()
      modifies this`pages, this`segs
      ensures Wrote(builds, old(segs), current, x) && Left() == old(Left()) - |x|
    {
      hide Laid, Recorded, Mems, Stream, Longer;
      LinkedBasics(g, pages, segs, builds);
      var last := |pages| - 1;
      ghost var before, was := pages, segs;
      pages := pages[last := pages[last].(mem := pages[last].mem + x)];
      segs := Longer(g, Mems(before), was, x);
      BytesLinked(g, before, pages, was, builds, x);
      StreamLonger(g, Mems(before), was, x);
    }

    method WriteEncoded(x: seq<byte>)
      requires Valid() && 1 <= |x| <= MIN_BUFFER
      modifies this`pages, this`builds, this`segs
      ensures Wrote(old(builds), old(segs), current, x)
    {
      hide Linked, Stream;
      LinkedBasics(g, pages, segs, builds);
      if Left() < |x| {
        Flush();
      }
      Append(x);
    }

    /** Bytes of any number, over as many pages as they take. */
    method WriteNative(x: seq<byte>)
      requires Valid()
      modifies this`pages, this`builds, this`segs
      ensures Wrote(old(builds), old(segs), current, x)
    {
      hide Linked, Stream;
      LinkedBasics(g, pages, segs, builds);
      if Left() >= |x| {
        Append(x);
        return;
      }
      var p := 0;
      NothingWritten(segs, x);
      while true
        invariant 0 <= p < |x| && pages != [] && Left() >= 0
        invariant Wrote(old(builds), old(segs), current, x[..p])
        decreases |x| - p, if Left() == 0 then 1 else 0
      {
        LinkedBasics(g, pages, segs, builds);
        var step := if Left() < |x| - p then Left() else |x| - p;
        ghost var segs0 := segs;
        Append(x[p..p + step]);
        RawsSplit(x, p, step);
        assert Stream(segs) == Stream(old(segs)) + Raws(x[..p + step]) by {
          assert Stream(old(segs)) + Raws(x[..p]) + Raws(x[p..p + step]) ==
                 Stream(old(segs)) + (Raws(x[..p]) + Raws(x[p..p + step]));
        }
        p := p + step;
        if p == |x| {
          assert x[..p] == x;
          return;
        }
        Flush();
      }
    }

    /** Counts one element of the open container; a pair counts when its value comes. */
    method TrackElement()
      requires Valid()
      modifies this`builds
      ensures Valid() && Added(old(builds), builds, current.pos) && builds.Keys == old(builds).Keys
    {
      hide Laid, Recorded, Stream;
      var r := builds[current.pos];
      if !r.isMap {
        r := r.(count := (r.count + 1) % TWO32);
      } else if r.keyNeedsValue {
        r := r.(keyNeedsValue := false, count := (r.count + 1) % TWO32);
      } else {
        r := r.(keyNeedsValue := true);
      }
      BumpedRecorded(segs, builds, Unapplied(pages), current.pos, r);
      builds := builds[current.pos := r];
    }

    /** Finds aligned room for a record, and room to write behind it. */
    method PlaceRecord(isMap: bool)
      requires Checked(g) && Applied()
      modifies this`pages, this`builds, this`current, this`latest
      ensures var at := Place(g, old(Mems(pages)));
              && current == latest == At(at)
              && builds == old(builds)[at := Record(old(current), 0, 0, isMap, false)]
              && pages == WithRoom(g, Placed(g, old(pages), Header()), Header())
    {
      hide Align, Padded;
      var last := |pages| - 1;
      var offset := Align(g, pages[last].used);
      if offset + g.record > g.page {
        AddPage();
        last := last + 1;
        offset := Align(g, pages[last].used);
      }
      pages := pages[last := Page(Padded(g, pages[last].mem) + Blank(g), offset + g.record)];
      var at := Pos(last, offset);
      builds := builds[at := Record(current, 0, 0, isMap, false)];
      current, latest := At(at), At(at);
      if g.page - pages[last].used < MIN_BUFFER {
        AddPage();
      }
    }

    /** Opens a container inside the current one. */
    method Build(isMap: bool)
      requires Valid()
      modifies this`pages, this`builds, this`segs, this`current, this`latest
      ensures Valid() && current.pos !in old(builds)
      ensures builds[current.pos] == Record(old(current), 0, 0, isMap, false)
      ensures SameShapes(old(builds)[current.pos := Record(old(current), 0, 0, isMap, false)], builds)
      ensures Stream(segs) == old(Stream(segs)) + [Tag(current.pos)]
    {
      hide Linked, Stream, WithRoom, Placed, Mems;
      ApplyWrites();
      ghost var pages0, builds0, segs0, parent := pages, builds, segs, current;
      LinkedBasics(g, pages, segs, builds);
      PlaceRecord(isMap);
      RecordLinked(g, pages0, segs0, builds0, parent, isMap, Header());
      ghost var at := current.pos;
      ghost var s := Seg(at, [], Pos(at.page, at.off + g.record));
      segs := segs0 + [s];
      StreamRecord(segs0, s);
    }

    /** Opens the outermost container. */
    method Begin(isMap: bool)
      requires Usable(g) && current == None
      modifies this`pages, this`builds, this`segs, this`current, this`latest
      ensures Valid() && builds == map[current.pos := Record(None, 0, 0, isMap, false)]
      ensures Stream(segs) == [Tag(current.pos)]
    {
      hide Linked, Stream, Mems, Spans, Align, Padded;
      pages, builds := [Page(Header(), g.header)], map[];
      ghost var pages0 := pages;
      PlaceRecord(isMap);
      FirstLinked(g, isMap, Header());
      ghost var at := current.pos;
      ghost var s := Seg(at, [], Pos(at.page, at.off + g.record));
      segs := [s];
      assert [] + [s] == [s];
      StreamRecord([], s);
      assert Stream([]) == [] by { StreamEmpty(); }
    }

    /** The inner loop of the walk: copies the bytes behind a record, page after page. */
    method CopyBytes(kept: seq<Page>, page0: nat, offset0: nat, bytes: nat) returns (page: nat, offset: nat)
      requires sink.Valid() && ReadBody(g, kept, Pos(page0, offset0), bytes).Read?
      modifies sink
      ensures var r := ReadBody(g, kept, Pos(page0, offset0), bytes);
              Pos(page, offset) == r.end && sink.Valid() && sink.Contents() == old(sink.Contents()) + r.bytes
    {
      hide ReadBody;
      page, offset := page0, offset0;
      var left: nat := bytes;
      ghost var total := sink.Contents() + ReadBody(g, kept, Pos(page0, offset0), bytes).bytes;
      while left > 0
        invariant ToRead(sink.Contents(), ReadBody(g, kept, Pos(page, offset), left), total)
        invariant ReadBody(g, kept, Pos(page, offset), left).end == ReadBody(g, kept, Pos(page0, offset0), bytes).end
        invariant sink.Valid()
        decreases |kept| - page, left
      {
        BodyStep(g, kept, Pos(page, offset), left, sink.Contents(), total);
        var used := kept[page].used;
        if offset < used {
          var step := if used - offset > left then left else used - offset;
          sink.WriteNative(kept[page].mem[offset..offset + step]);
          offset, left := offset + step, left - step;
        }
        if left == 0 {
          break;
        }
        page, offset := page + 1, g.header;
      }
      NothingToRead(g, kept, Pos(page, offset), sink.Contents(), total);
    }

    /** Walks the pages and writes out what it reads there. */
    method Resolve()
      requires g.align >= 1 && g.record >= 1 && ReadOut(g, pages, builds).Read? && sink.Valid()
      modifies this`current, this`latest, this`pages, sink
      ensures current == None && latest == None && pages == [] && sink.Valid()
      ensures sink.Contents() == old(sink.Contents()) + old(ReadOut(g, pages, builds).bytes)
    {
      hide TagBytes, Align, ReadBody, ReadFrom, ToRead;
      var kept := pages;
      current, latest, pages := None, None, [];
      ghost var total := sink.Contents() + ReadOut(g, kept, builds).bytes;
      var page: nat, offset: nat := 0, Align(g, g.header);
      var at := Pos(page, offset);
      offset := offset + g.record;
      StartToRead(sink.Contents(), ReadOut(g, kept, builds), total);
      while true
        invariant page == at.page && offset == at.off + g.record && sink.Valid()
        invariant ToRead(sink.Contents(), ReadFrom(g, kept, builds, at), total)
        invariant current == None && latest == None && pages == []
        decreases |kept| - at.page, g.page - at.off
      {
        WalkStep(g, kept, builds, at, sink.Contents(), total);
        TagLength(builds[at]);
        sink.WriteEncoded(TagBytes(builds[at]));
        page, offset := CopyBytes(kept, page, offset, builds[at].bytes);
        offset := Align(g, offset);
        if offset + g.record > g.page {
          page := page + 1;
          if page == |kept| {
            break;
          }
          offset := Align(g, g.header);
        }
        if offset + g.record > kept[page].used {
          break;
        }
        at := Pos(page, offset);
        offset := offset + g.record;
      }
    }

    /** Completes the current container; the outermost one writes the message. A key without a value is refused. */
    method Complete() returns (ok: bool)
      requires Valid() && sink.Valid()
      modifies this, sink
      ensures ok <==> !old(builds)[old(current.pos)].keyNeedsValue
      ensures var r := old(builds)[old(current.pos)];
              ok && r.parent.At? ==> Wrote(old(builds), old(segs), r.parent, []) && sink.Valid() && sink.Contents() == old(sink.Contents())
      ensures var r := old(builds)[old(current.pos)];
              ok && r.parent.None? ==> sink.Valid() && sink.Contents() == old(sink.Contents()) + Render(old(builds), old(Stream(segs)))
    {
      hide Linked, Stream, Render;
      if builds[current.pos].keyNeedsValue {
        return false;
      }
      ghost var before := builds;
      ApplyWrites();
      if builds[current.pos].parent.At? {
        ParentKnown(g, pages, segs, builds, current.pos);
        current := builds[current.pos].parent;
        assert Stream(segs) + Raws([]) == Stream(segs);
      } else {
        StreamKnown(g, pages, segs, builds, before);
        ReadOutRenders(g, pages, segs, builds);
        Resolve();
      }
      return true;
    }

    /** Short strings go out with their tag, longer ones may straddle pages. */
    method WriteStr(s: seq<byte>)
      requires Valid() && |s| < TWO32
      modifies this`pages, this`builds, this`segs
      ensures Wrote(old(builds), old(segs), current, StrTag(|s|) + s)
    {
      hide Linked, Stream, Raws, Be;
      if |s| <= 31 {
        WriteEncoded([0xa0 + |s|] + s);
        return;
      }
      if |s| < TWO8 {
        LinkedBasics(g, pages, segs, builds);
        if |s| + 2 <= Left() {
          Append([0xd9] + Be(|s|, 1) + s);
        } else {
          WriteTagged([0xd9] + Be(|s|, 1), s);
        }
        return;
      }
      if |s| < TWO16 {
        WriteTagged([0xda] + Be(|s|, 2), s);
      } else {
        WriteTagged([0xdb] + Be(|s|, 4), s);
      }
    }

    /** A value that is no container. */
    method WriteLeaf(v: Value)
      requires Valid() && Fits(v) && !v.Array? && !v.Map?
      modifies this`pages, this`builds, this`segs
      ensures Valid() && Added(old(builds), builds, current.pos) && builds.Keys == old(builds).Keys
      ensures Stream(segs) == old(Stream(segs)) + Raws(Encode(v))
    {
      hide Linked, Stream, Raws, EncodeUInt, EncodeInt, StrTag, BinTag, Be;
      TrackElement();
      ghost var counted := builds;
      LeafLength(v);
      match v {
        case Str(s) => WriteStr(s);
        case Bin(s) => WriteTagged(BinTag(|s|), s);
        case Nil => WriteEncoded([0xc0]);
        case Bool(b) => WriteEncoded([if b then 0xc3 else 0xc2]);
        case UInt(u) => WriteEncoded(EncodeUInt(u));
        case Int(i) => WriteEncoded(EncodeInt(i));
        case Float(bits) => WriteEncoded([0xca] + Be(bits, 4));
        case Double(bits) => WriteEncoded([0xcb] + Be(bits, 8));
      }
    }

    method WriteTagged(tag: seq<byte>, s: seq<byte>)
      requires Valid() && 1 <= |tag| <= MIN_BUFFER
      modifies this`pages, this`builds, this`segs
      ensures Wrote(old(builds), old(segs), current, tag + s)
    {
      hide Linked, Stream, Raws;
      WriteEncoded(tag);
      WriteNative(s);
      RawsConcat(old(segs), tag, s);
    }

    /** A value: containers are opened, filled and completed. */
    method WriteValue(v: Value)
      requires Valid() && sink.Valid() && Fits(v) && builds[current.pos].count + 1 < TWO32
      modifies this, sink
      decreases v, 1
      ensures Valid() && sink.Valid() && sink.Contents() == old(sink.Contents()) && current == old(current)
      ensures Added(old(builds), builds, current.pos)
      ensures Tail(old(builds), builds, old(Stream(segs)), Stream(segs), Encode(v))
    {
      hide Linked, Stream, Tail, Encode, Fits, Render;
      if !v.Array? && !v.Map? {
        WriteLeaf(v);
        LeafTail(old(builds), builds, old(Stream(segs)), Encode(v));
      } else {
        WriteContainer(v);
      }
    }

    method WriteContainer(v: Value)
      requires Valid() && sink.Valid() && Fits(v) && (v.Array? || v.Map?) && builds[current.pos].count + 1 < TWO32
      modifies this, sink
      decreases v, 0
      ensures Valid() && sink.Valid() && sink.Contents() == old(sink.Contents()) && current == old(current)
      ensures Added(old(builds), builds, current.pos)
      ensures Tail(old(builds), builds, old(Stream(segs)), Stream(segs), Encode(v))
    {
      hide Linked, Stream, Tail, Encode, Fits, Render, AllFit, EncodeAll, Raws, Added, Filled, SameShapes;
      FitsItems(v);
      ghost var s0, parent := Stream(segs), current;
      TrackElement();
      ghost var b1 := builds;
      Build(v.Map?);
      ghost var b2, s2, at := builds, Stream(segs), current.pos;
      WriteItems(v.items);
      ghost var b3, s3 := builds, Stream(segs);
      FilledParts(b2, b3, at, |v.items|);
      var ok := Complete();
      NoRaws();
      assert Stream(segs) == s3;
      OpenedKeys(b1, b2, at);
      ContainerTail(old(builds), b1, b2, b3, builds, s0, s2, s3, at, v);
      ContainerAdded(old(builds), b1, b2, b3, builds, parent.pos, at, |v.items|);
    }

    /** The elements of a container that is empty so far. */
    method WriteItems(items: seq<Value>)
      requires Valid() && sink.Valid() && AllFit(items)
      requires var r := builds[current.pos]; Elements(r) == 0 && FitsInside(r.isMap, items)
      modifies this, sink
      decreases items
      ensures Valid() && sink.Valid() && sink.Contents() == old(sink.Contents()) && current == old(current)
      ensures Filled(old(builds), builds, current.pos, |items|)
      ensures Tail(old(builds), builds, old(Stream(segs)), Stream(segs), EncodeAll(items))
    {
      hide Linked, Stream, Tail, EncodeAll, Fits, AllFit, Render;
      ghost var b0, s0, at := builds, Stream(segs), current.pos;
      var i := 0;
      EmptyTail(b0, s0);
      assert items[..0] == [];
      while i < |items|
        invariant 0 <= i <= |items| && Valid() && sink.Valid() && sink.Contents() == old(sink.Contents())
        invariant current == At(at) && Filled(b0, builds, at, i) && AllFit(items[..i])
        invariant Tail(b0, builds, s0, Stream(segs), EncodeAll(items[..i]))
      {
        FitsAt(items, i);
        ghost var b, s := builds, Stream(segs);
        WriteValue(items[i]);
        TailStep(b0, b, builds, s0, s, Stream(segs), EncodeAll(items[..i]), Encode(items[i]), at);
        FilledStep(b0, b, builds, at, i);
        EncodeAllSnoc(items, i);
        i := i + 1;
      }
      assert items[..|items|] == items;
    }
  }

  // ---- what the calls add up to ----

  /** The stream has grown by tokens that stand for the bytes x, with records of their own. */
  predicate Tail(b: map<Pos, Record>, b': map<Pos, Record>, s: seq<Tok>, s': seq<Tok>, x: seq<byte>) {
    && s <= s' && Render(b', s'[|s|..]) == x
    && forall i :: |s| <= i < |s'| && s'[i].Tag? ==> s'[i].at !in b && s'[i].at in b'
  }

  /** The container at `at` has received n elements; other containers that were there are as before. */
  predicate Filled(b: map<Pos, Record>, b': map<Pos, Record>, at: Pos, n: nat)
    requires at in b
  {
    && (forall p :: p in b ==> p in b' && (p != at ==> Shape(b'[p]) == Shape(b[p])))
    && b'[at].isMap == b[at].isMap && b'[at].parent == b[at].parent && Elements(b'[at]) == n
    && (!b[at].isMap ==> b'[at].keyNeedsValue == b[at].keyNeedsValue)
  }

  predicate FitsInside(isMap: bool, items: seq<Value>) {
    if isMap then |items| % 2 == 0 && |items| / 2 < TWO32 else |items| < TWO32
  }

  lemma FitsItems(v: Value)
    requires Fits(v) && (v.Array? || v.Map?)
    ensures FitsInside(v.Map?, v.items) && AllFit(v.items)
  {
  }

  lemma {:induction false} FitsAt(items: seq<Value>, i: nat)
    requires AllFit(items) && i < |items|
    ensures Fits(items[i]) && AllFit(items[..i]) && AllFit(items[..i + 1])
    decreases |items|
  {
    hide Fits;
    if i > 0 {
      FitsAt(items[1..], i - 1);
      assert items[..i][1..] == items[1..][..i - 1] && items[..i + 1][1..] == items[1..][..i];
    }
  }

  lemma {:induction false} EncodeAllSnoc(items: seq<Value>, i: nat)
    requires AllFit(items) && i < |items| && AllFit(items[..i]) && AllFit(items[..i + 1]) && Fits(items[i])
    ensures EncodeAll(items[..i + 1]) == EncodeAll(items[..i]) + Encode(items[i])
    decreases |items|
  {
    hide Fits, Encode;
    if i == 0 {
      assert items[..1][1..] == [] && items[..0] == [];
    } else {
      FitsAt(items[1..], i - 1);
      EncodeAllSnoc(items[1..], i - 1);
      assert items[..i][1..] == items[1..][..i - 1] && items[..i + 1][1..] == items[1..][..i];
    }
  }

  lemma LeafLength(v: Value)
    requires Fits(v) && !v.Array? && !v.Map?
    ensures v.Bin? ==> 1 <= |BinTag(|v.bytes|)| <= 5
    ensures !v.Str? && !v.Bin? ==> 1 <= |Encode(v)| <= 9
  {
  }

  lemma FilledParts(b: map<Pos, Record>, b': map<Pos, Record>, at: Pos, n: nat)
    requires at in b && Filled(b, b', at, n) && !b[at].keyNeedsValue && (b[at].isMap ==> n % 2 == 0)
    ensures at in b' && b'[at].parent == b[at].parent && !b'[at].keyNeedsValue
  {
  }

  lemma OpenedKeys(b: map<Pos, Record>, b': map<Pos, Record>, at: Pos)
    requires at in b' && SameShapes(b[at := b'[at]], b')
    ensures b'.Keys == b.Keys + {at}
  {
  }

  lemma NoRaws()
    ensures Raws([]) == []
  {
  }

  lemma RawsConcat(segs: seq<Seg>, a: seq<byte>, b: seq<byte>)
    ensures Stream(segs) + Raws(a) + Raws(b) == Stream(segs) + Raws(a + b)
  {
    assert Raws(a) + Raws(b) == Raws(a + b);
  }

  lemma LeafTail(b: map<Pos, Record>, b': map<Pos, Record>, s: seq<Tok>, x: seq<byte>)
    ensures Tail(b, b', s, s + Raws(x), x)
  {
    assert (s + Raws(x))[|s|..] == Raws(x);
    RenderRaws(b', x);
  }

  lemma EmptyTail(b: map<Pos, Record>, s: seq<Tok>)
    ensures AllFit([]) && Tail(b, b, s, s, EncodeAll([]))
  {
  }

  lemma TailStep(b0: map<Pos, Record>, b: map<Pos, Record>, b': map<Pos, Record>, s0: seq<Tok>, s: seq<Tok>, s': seq<Tok>,
                 x: seq<byte>, y: seq<byte>, at: Pos)
    requires Tail(b0, b, s0, s, x) && Tail(b, b', s, s', y) && at in b0 && at in b && Added(b, b', at)
    requires forall p :: p in b0 ==> p in b
    ensures Tail(b0, b', s0, s', x + y)
  {
    var u, w := s[|s0|..], s'[|s|..];
    assert s'[|s0|..] == u + w;
    RenderSame(b, b', u);
    RenderConcat(b', u, w);
    forall i | |s0| <= i < |s'| && s'[i].Tag?
      ensures s'[i].at !in b0 && s'[i].at in b'
    {
      if i < |s| {
        assert s'[i] == s[i];
      }
    }
  }

  lemma FilledStep(b0: map<Pos, Record>, b: map<Pos, Record>, b': map<Pos, Record>, at: Pos, i: nat)
    requires at in b0 && Filled(b0, b, at, i) && Added(b, b', at) && b[at].count + 1 < TWO32
    ensures Filled(b0, b', at, i + 1)
  {
    assert Shape(b'[at]) == Shape(Bumped(b[at]));
    assert Elements(b'[at]) == Elements(Shape(b'[at])) == Elements(Bumped(b[at])) == i + 1;
  }

  lemma PairsComplete(r: Record, n: nat)
    requires Elements(r) == n && (r.isMap ==> n % 2 == 0)
    ensures r.isMap ==> !r.keyNeedsValue && r.count == n / 2
    ensures !r.isMap ==> r.count == n
  {
  }

  lemma ContainerTail(b0: map<Pos, Record>, b1: map<Pos, Record>, b2: map<Pos, Record>, b3: map<Pos, Record>, b4: map<Pos, Record>,
                      s0: seq<Tok>, s2: seq<Tok>, s3: seq<Tok>, at: Pos, v: Value)
    requires Fits(v) && (v.Array? || v.Map?) && FitsInside(v.Map?, v.items) && AllFit(v.items)
    requires b1.Keys == b0.Keys && at !in b1 && b2.Keys == b1.Keys + {at} && b2[at].isMap == v.Map?
    requires s2 == s0 + [Tag(at)] && Filled(b2, b3, at, |v.items|) && Tail(b2, b3, s2, s3, EncodeAll(v.items))
    requires SameShapes(b3, b4)
    ensures Tail(b0, b4, s0, s3, Encode(v))
  {
    hide EncodeAll, AllFit;
    var u := s3[|s2|..];
    assert s3[|s0|..] == [Tag(at)] + u;
    RenderSame(b3, b4, u);
    RenderConcat(b4, [Tag(at)], u);
    PairsComplete(b3[at], |v.items|);
    assert Shape(b4[at]) == Shape(b3[at]);
    assert Render(b4, [Tag(at)]) == TagBytes(b4[at]) + Render(b4, []);
    assert s3[|s0|] == Tag(at);
    forall i | |s0| <= i < |s3| && s3[i].Tag?
      ensures s3[i].at !in b0 && s3[i].at in b4
    {
    }
  }

  lemma ContainerAdded(b0: map<Pos, Record>, b1: map<Pos, Record>, b2: map<Pos, Record>, b3: map<Pos, Record>, b4: map<Pos, Record>,
                       parent: Pos, at: Pos, n: nat)
    requires parent in b0 && Added(b0, b1, parent) && at !in b1 && at in b2
    requires SameShapes(b1[at := b2[at]], b2)
    requires Filled(b2, b3, at, n) && SameShapes(b3, b4)
    ensures Added(b0, b4, parent)
  {
    forall p | p in b0
      ensures p in b4 && Shape(b4[p]) == Shape(if p == parent then Bumped(b0[p]) else b0[p])
    {
      assert p in b1 && p in b1[at := b2[at]] && p in b3;
    }
  }

  lemma ParentKnown(g: Geometry, pages: seq<Page>, segs: seq<Seg>, builds: map<Pos, Record>, at: Pos)
    requires Usable(g) && Linked(g, pages, segs, builds) && at in builds && builds[at].parent.At?
    ensures builds[at].parent.pos in builds
  {
  }

  lemma LinkedFirst(g: Geometry, pages: seq<Page>, segs: seq<Seg>, builds: map<Pos, Record>)
    requires Usable(g) && Linked(g, pages, segs, builds)
    ensures segs != [] && segs[0].at == Pos(0, Align(g, g.header)) && Stream(segs[..0]) == [] && Render(builds, []) == []
  {
  }

  lemma LinkedAt(g: Geometry, pages: seq<Page>, segs: seq<Seg>, builds: map<Pos, Record>, i: nat)
    requires Usable(g) && Linked(g, pages, segs, builds) && i < |segs| && Unapplied(pages) == 0
    ensures segs[i].at in builds && builds[segs[i].at].bytes == |segs[i].body|
    ensures Spans(g, Mems(pages), Start(g, segs[i]), segs[i].body, segs[i].end)
    ensures segs[i].at.page < |pages|
    ensures forall k :: 0 <= k < |pages| ==> pages[k].used == |pages[k].mem| && Mems(pages)[k] == pages[k].mem
  {
    assert SegOk(g, Mems(pages), segs[i]);
    RecordedAt(segs, builds, i);
    hide Spans, Laid, Recorded;
    PagesAsMems(g, pages);
    SpansOrder(g, Mems(pages), Start(g, segs[i]), segs[i].body, segs[i].end);
  }

  lemma RecordedAt(segs: seq<Seg>, builds: map<Pos, Record>, i: nat)
    requires Recorded(segs, builds, 0) && i < |segs|
    ensures segs[i].at in builds && builds[segs[i].at].bytes == |segs[i].body|
  {
  }

  /** Bytes written and bytes still to be read make up the whole. */
  predicate ToRead(out: seq<byte>, r: Reading, total: seq<byte>) {
    r.Read? && out + r.bytes == total
  }

  lemma StartToRead(out: seq<byte>, r: Reading, total: seq<byte>)
    requires r.Read? && total == out + r.bytes
    ensures ToRead(out, r, total)
  {
  }

  /** One round of copying. */
  lemma BodyStep(g: Geometry, pages: seq<Page>, from: Pos, n: nat, out: seq<byte>, total: seq<byte>)
    requires n > 0 && ToRead(out, ReadBody(g, pages, from, n), total)
    ensures from.page < |pages| && pages[from.page].used <= |pages[from.page].mem|
    ensures var p, r := pages[from.page], ReadBody(g, pages, from, n);
            var step := if from.off >= p.used then 0 else if p.used - from.off > n then n else p.used - from.off;
            var next := if step == n then Pos(from.page, from.off + n) else Pos(from.page + 1, g.header);
            var out' := if step == 0 then out else out + p.mem[from.off..from.off + step];
            ToRead(out', ReadBody(g, pages, next, n - step), total) && ReadBody(g, pages, next, n - step).end == r.end
  {
  }

  lemma NothingToRead(g: Geometry, pages: seq<Page>, at: Pos, out: seq<byte>, total: seq<byte>)
    requires ToRead(out, ReadBody(g, pages, at, 0), total)
    ensures ReadBody(g, pages, at, 0).end == at && out == total
  {
  }

  /** One round of the walk. */
  lemma WalkStep(g: Geometry, pages: seq<Page>, builds: map<Pos, Record>, at: Pos, out: seq<byte>, total: seq<byte>)
    requires g.align >= 1 && g.record >= 1 && ToRead(out, ReadFrom(g, pages, builds, at), total)
    ensures at in builds && at.page < |pages|
    ensures var r := ReadBody(g, pages, Pos(at.page, at.off + g.record), builds[at].bytes);
            && r.Read? && r.end.page < |pages|
            && var out', next := out + TagBytes(builds[at]) + r.bytes, Next(g, r.end);
            && at.page <= next.page <= |pages| && (at.page == next.page ==> at.off < next.off)
            && if next.page == |pages| || next.off + g.record > pages[next.page].used then out' == total
               else ToRead(out', ReadFrom(g, pages, builds, next), total)
  {
    hide ReadBody, TagBytes, Align;
  }

  lemma {:induction false} BodyRead(g: Geometry, pages: seq<Page>, from: Pos, body: seq<byte>, end: Pos)
    requires Spans(g, Mems(pages), from, body, end) && forall k :: 0 <= k < |pages| ==> pages[k].used == |pages[k].mem|
    ensures ReadBody(g, pages, from, |body|) == Read(body, end)
    decreases |pages| - from.page
  {
    var mems := Mems(pages);
    var page := mems[from.page];
    if from.off + |body| > |page| {
      var n := |page| - from.off;
      assert Spans(g, mems, Pos(from.page + 1, g.header), body[n..], end);
      hide Spans, Mems;
      BodyRead(g, pages, Pos(from.page + 1, g.header), body[n..], end);
      assert body[..n] + body[n..] == body;
      assert page[from.off..|page|] == body[..n];
    }
  }

  /** Out of linked pages the walk reads exactly the stream. */
  lemma ReadOutRenders(g: Geometry, pages: seq<Page>, segs: seq<Seg>, builds: map<Pos, Record>)
    requires Usable(g) && Linked(g, pages, segs, builds) && Unapplied(pages) == 0
    ensures g.record >= 1 && ReadOut(g, pages, builds).Read? && ReadOut(g, pages, builds).bytes == Render(builds, Stream(segs))
  {
    hide Linked, Stream, Render, ReadFrom, Align;
    LinkedFirst(g, pages, segs, builds);
    RestRenders(g, pages, segs, builds, 0);
  }

  lemma {:induction false} RestRenders(g: Geometry, pages: seq<Page>, segs: seq<Seg>, builds: map<Pos, Record>, i: nat)
    requires Usable(g) && Linked(g, pages, segs, builds) && Unapplied(pages) == 0 && i < |segs| && g.record >= 1
    ensures var r := ReadFrom(g, pages, builds, segs[i].at);
            r.Read? && Render(builds, Stream(segs[..i])) + r.bytes == Render(builds, Stream(segs))
    decreases |segs| - i
  {
    hide Linked, Stream, Render, TagBytes, ReadBody, Spans, Align;
    LinkedAt(g, pages, segs, builds, i);
    BodyRead(g, pages, Start(g, segs[i]), segs[i].body, segs[i].end);
    StreamStep(builds, segs, i);
    LinkedNext(g, pages, segs, builds, i);
    if i + 1 < |segs| {
      RestRenders(g, pages, segs, builds, i + 1);
    } else {
      assert segs[..i + 1] == segs;
    }
  }

  /** The walk finds the next record where it is, and stops behind the last one. */
  lemma LinkedNext(g: Geometry, pages: seq<Page>, segs: seq<Seg>, builds: map<Pos, Record>, i: nat)
    requires Usable(g) && Linked(g, pages, segs, builds) && i < |segs| && Unapplied(pages) == 0
    ensures var end, next := segs[i].end, Next(g, segs[i].end);
            if i + 1 < |segs| then
              segs[i + 1].at == next && next.page < |pages| && next.off + g.record <= pages[next.page].used
            else next.page == |pages| || (next.page < |pages| && next.off + g.record > pages[next.page].used)
  {
    hide Recorded, Align;
    var end := segs[i].end;
    PagesAsMems(g, pages);
    if i + 1 < |segs| {
      assert SegOk(g, Mems(pages), segs[i + 1]);
      hide Spans;
      NextIsAfter(g, Mems(pages), segs[i + 1]);
    } else {
      hide Spans;
      TailIsFull(g, Mems(pages), end);
    }
  }

  lemma PagesAsMems(g: Geometry, pages: seq<Page>)
    requires PagesUsed(g, pages) && Unapplied(pages) == 0
    ensures forall k :: 0 <= k < |pages| ==> pages[k].used == |pages[k].mem| && Mems(pages)[k] == pages[k].mem
  {
  }

  lemma TagLength(r: Record)
    ensures 1 <= |TagBytes(r)| <= 5
  {
  }

  lemma StreamStep(builds: map<Pos, Record>, segs: seq<Seg>, i: nat)
    requires i < |segs| && segs[i].at in builds
    ensures Render(builds, Stream(segs[..i + 1])) ==
            Render(builds, Stream(segs[..i])) + TagBytes(builds[segs[i].at]) + segs[i].body
  {
    var s := segs[i];
    assert segs[..i + 1][..i] == segs[..i];
    RenderConcat(builds, Stream(segs[..i]), [Tag(s.at)] + Raws(s.body));
    RenderConcat(builds, [Tag(s.at)], Raws(s.body));
    RenderRaws(builds, s.body);
    assert Render(builds, [Tag(s.at)]) == TagBytes(builds[s.at]) + Render(builds, []);
  }

  /** Every tag of the stream has its record, so only the records' shapes matter to the message. */
  lemma StreamKnown(g: Geometry, pages: seq<Page>, segs: seq<Seg>, builds: map<Pos, Record>, before: map<Pos, Record>)
    requires Usable(g) && Linked(g, pages, segs, builds) && SameShapes(before, builds)
    ensures Render(builds, Stream(segs)) == Render(before, Stream(segs))
  {
    hide Laid;
    TagsKnown(segs, builds);
    RenderSame(builds, before, Stream(segs));
  }

  lemma {:induction false} TagsKnown(segs: seq<Seg>, builds: map<Pos, Record>)
    requires forall i :: 0 <= i < |segs| ==> segs[i].at in builds
    ensures forall i :: 0 <= i < |Stream(segs)| && Stream(segs)[i].Tag? ==> Stream(segs)[i].at in builds
    decreases |segs|
  {
    if segs != [] {
      TagsKnown(segs[..|segs| - 1], builds);
    }
  }

  lemma StreamEmpty()
    ensures Stream([]) == []
  {
  }

  lemma NothingWritten(segs: seq<Seg>, x: seq<byte>)
    ensures Stream(segs) == Stream(segs) + Raws(x[..0])
  {
  }

  lemma RawsSplit(x: seq<byte>, p: nat, step: nat)
    requires p + step <= |x|
    ensures Raws(x[..p + step]) == Raws(x[..p]) + Raws(x[p..p + step])
  {
  }

  lemma BumpedRecorded(segs: seq<Seg>, builds: map<Pos, Record>, unapplied: int, at: Pos, r: Record)
    requires Recorded(segs, builds, unapplied) && at in builds && r.bytes == builds[at].bytes && r.parent == builds[at].parent
    ensures Recorded(segs, builds[at := r], unapplied)
  {
  }

  function Blank(g: Geometry): (r: seq<byte>)
    ensures |r| == g.record
  {
    seq(g.record, _ => 0)
  }

  /** The pages after a record was placed. */
  function Placed(g: Geometry, pages: seq<Page>, header: seq<byte>): (r: seq<Page>)
    requires g.align >= 1 && pages != [] && |header| == g.header
    ensures r != []
  {
    var last := |pages| - 1;
    var mem := pages[last].mem;
    if Align(g, |mem|) + g.record <= g.page
    then pages[last := Page(Padded(g, mem) + Blank(g), Align(g, |mem|) + g.record)]
    else pages + [Page(Padded(g, header) + Blank(g), Align(g, |header|) + g.record)]
  }

  /** ... and a fresh page behind them when the record left little room. */
  function WithRoom(g: Geometry, pages: seq<Page>, header: seq<byte>): seq<Page>
    requires pages != []
  {
    if g.page - pages[|pages| - 1].used < MIN_BUFFER then pages + [Page(header, |header|)] else pages
  }

  lemma PlacedMems(g: Geometry, pages: seq<Page>, header: seq<byte>)
    requires Usable(g) && pages != [] && |header| == g.header
    ensures Mems(Placed(g, pages, header)) == WithRecord(g, Mems(pages), header, Blank(g))
    ensures var r := Placed(g, pages, header); Place(g, Mems(pages)) == Pos(|r| - 1, r[|r| - 1].used - g.record)
  {
    hide Align, Padded;
    assert |header| == g.header;
  }

  /** A placed record continues the layout. */
  lemma RecordLinked(g: Geometry, pages: seq<Page>, segs: seq<Seg>, builds: map<Pos, Record>, parent: Ref, isMap: bool,
                     header: seq<byte>)
    requires Usable(g) && Linked(g, pages, segs, builds) && |header| == g.header
    requires pages[|pages| - 1].used == |pages[|pages| - 1].mem| && (parent.At? ==> parent.pos in builds)
    ensures var at := Place(g, Mems(pages));
            && at !in builds
            && Linked(g, WithRoom(g, Placed(g, pages, header), header), segs + [Seg(at, [], Pos(at.page, at.off + g.record))],
                      builds[at := Record(parent, 0, 0, isMap, false)])
  {
    hide Laid, Recorded, WithRecord, Place, Align, Padded;
    LinkedBasics(g, pages, segs, builds);
    var pages' := Placed(g, pages, header);
    var at := Place(g, Mems(pages));
    var builds' := builds[at := Record(parent, 0, 0, isMap, false)];
    var segs' := segs + [Seg(at, [], Pos(at.page, at.off + g.record))];
    PlacedMems(g, pages, header);
    LaidPlace(g, Mems(pages), segs);
    LaidRecord(g, Mems(pages), segs, header, Blank(g));
    assert PagesUsed(g, pages') && Unapplied(pages') == 0 by { PlacedUsed(g, pages, header); }
    NewPlace(g, Mems(pages), segs, builds, 0);
    RecordedPlace(segs, builds, at, parent, isMap, segs'[|segs|]);
    assert Linked(g, pages', segs', builds');
    if g.page - pages'[|pages'| - 1].used < MIN_BUFFER {
      PageLinked(g, pages', pages' + [Page(header, |header|)], segs', builds', header);
    }
  }

  lemma PlacedUsed(g: Geometry, pages: seq<Page>, header: seq<byte>)
    requires Usable(g) && PagesUsed(g, pages) && |header| == g.header && Unapplied(pages) == 0
    ensures PagesUsed(g, Placed(g, pages, header)) && Unapplied(Placed(g, pages, header)) == 0
  {
  }

  lemma LaidPlace(g: Geometry, pages: Pages, segs: seq<Seg>)
    requires Usable(g) && Laid(g, pages, segs) && pages != []
    ensures segs != [] && Place(g, pages) == Next(g, segs[|segs| - 1].end)
  {
    hide Spans, SegOk;
    TailIsFull(g, pages, segs[|segs| - 1].end);
  }

  /** No record is where the next one goes. */
  lemma NewPlace(g: Geometry, pages: Pages, segs: seq<Seg>, builds: map<Pos, Record>, unapplied: int)
    requires Usable(g) && Laid(g, pages, segs) && pages != [] && Recorded(segs, builds, unapplied)
    ensures Place(g, pages) !in builds
  {
    hide Laid;
    LaidPlace(g, pages, segs);
    if Place(g, pages) in builds {
      var i :| 0 <= i < |segs| && segs[i].at == Place(g, pages);
      LaidOrder(g, pages, segs, i, |segs|);
    }
  }

  lemma RecordedPlace(segs: seq<Seg>, builds: map<Pos, Record>, at: Pos, parent: Ref, isMap: bool, s: Seg)
    requires Recorded(segs, builds, 0) && at !in builds && (parent.At? ==> parent.pos in builds) && s.at == at && s.body == []
    ensures Recorded(segs + [s], builds[at := Record(parent, 0, 0, isMap, false)], 0)
  {
    var segs' := segs + [s];
    forall p | p in builds[at := Record(parent, 0, 0, isMap, false)]
      ensures HasSeg(segs', p)
    {
      if p == at {
        assert segs'[|segs|].at == p;
      } else {
        var i :| 0 <= i < |segs| && segs[i].at == p;
        assert segs'[i].at == p;
      }
    }
  }

  lemma FirstLinked(g: Geometry, isMap: bool, header: seq<byte>)
    requires Usable(g) && |header| == g.header
    ensures var pages := [Page(header, g.header)];
            var at := Place(g, Mems(pages));
            Linked(g, WithRoom(g, Placed(g, pages, header), header), [Seg(at, [], Pos(at.page, at.off + g.record))],
                   map[at := Record(None, 0, 0, isMap, false)])
  {
    hide Laid, WithRecord, Align, Padded;
    var pages := [Page(header, g.header)];
    var at := Place(g, Mems(pages));
    var pages' := Placed(g, pages, header);
    assert Mems(pages) == [header];
    PlacedMems(g, pages, header);
    LaidFirst(g, header, Blank(g));
    PlacedUsed(g, pages, header);
    var segs', builds' := [Seg(at, [], Pos(at.page, at.off + g.record))], map[at := Record(None, 0, 0, isMap, false)];
    assert HasSeg(segs', at) by { assert segs'[0].at == at; }
    assert Linked(g, pages', segs', builds');
    if g.page - pages'[|pages'| - 1].used < MIN_BUFFER {
      PageLinked(g, pages', pages' + [Page(header, |header|)], segs', builds', header);
    }
  }

  lemma AppliedLinked(g: Geometry, pages: seq<Page>, pages': seq<Page>, segs: seq<Seg>,
                      builds: map<Pos, Record>, builds': map<Pos, Record>)
    requires Usable(g) && Linked(g, pages, segs, builds)
    requires var n, at := |pages| - 1, segs[|segs| - 1].at;
             && pages' == pages[n := pages[n].(used := |pages[n].mem|)]
             && builds' == builds[at := builds[at].(bytes := builds[at].bytes + |pages[n].mem| - pages[n].used)]
    ensures Linked(g, pages', segs, builds') && Mems(pages') == Mems(pages)
  {
    hide Laid, Recorded;
    assert Mems(pages') == Mems(pages);
    LatestIsUnique(g, Mems(pages), segs);
    RecordedApplied(segs, builds, Unapplied(pages));
  }

  lemma RecordedApplied(segs: seq<Seg>, builds: map<Pos, Record>, unapplied: nat)
    requires Recorded(segs, builds, unapplied)
    requires forall i :: 0 <= i < |segs| - 1 ==> segs[i].at != segs[|segs| - 1].at
    ensures var at := segs[|segs| - 1].at; Recorded(segs, builds[at := builds[at].(bytes := builds[at].bytes + unapplied)], 0)
  {
  }

  lemma LatestIsUnique(g: Geometry, pages: Pages, segs: seq<Seg>)
    requires Usable(g) && Laid(g, pages, segs)
    ensures forall i :: 0 <= i < |segs| - 1 ==> segs[i].at != segs[|segs| - 1].at
  {
    hide Laid;
    assert segs != [] by { LaidNotEmpty(g, pages, segs); }
    forall i | 0 <= i < |segs| - 1
      ensures segs[i].at != segs[|segs| - 1].at
    {
      LaidOrder(g, pages, segs, i, |segs| - 1);
    }
  }

  lemma LaidNotEmpty(g: Geometry, pages: Pages, segs: seq<Seg>)
    requires Usable(g) && Laid(g, pages, segs)
    ensures segs != [] && PagesOk(g, pages)
  {
  }

  lemma PageLinked(g: Geometry, pages: seq<Page>, pages': seq<Page>, segs: seq<Seg>, builds: map<Pos, Record>, header: seq<byte>)
    requires Usable(g) && Linked(g, pages, segs, builds) && |header| == g.header
    requires pages[|pages| - 1].used == |pages[|pages| - 1].mem| && |pages[|pages| - 1].mem| + MIN_BUFFER > g.page
    requires pages' == pages + [Page(header, g.header)]
    ensures Linked(g, pages', segs, builds) && Mems(pages') == Mems(pages) + [header]
  {
    hide Laid, Recorded;
    assert Mems(pages') == Mems(pages) + [header];
    LaidPage(g, Mems(pages), segs, header);
  }

  lemma BytesLinked(g: Geometry, pages: seq<Page>, pages': seq<Page>, segs: seq<Seg>, builds: map<Pos, Record>, x: seq<byte>)
    requires Usable(g) && Linked(g, pages, segs, builds) && |pages[|pages| - 1].mem| + |x| <= g.page
    requires pages' == pages[|pages| - 1 := pages[|pages| - 1].(mem := pages[|pages| - 1].mem + x)]
    ensures Linked(g, pages', Longer(g, Mems(pages), segs, x), builds)
    ensures var segs' := Longer(g, Mems(pages), segs, x); segs'[|segs'| - 1].at == segs[|segs| - 1].at
  {
    hide Laid, Recorded, Longer;
    LinkedBasics(g, pages, segs, builds);
    LaidBytes(g, Mems(pages), segs, x);
    LaidNotEmpty(g, Mems(pages), segs);
    assert Mems(pages') == WithBytes(Mems(pages), x);
    RecordedLonger(g, Mems(pages), segs, builds, Unapplied(pages), x);
  }

  lemma RecordedLonger(g: Geometry, pages: Pages, segs: seq<Seg>, builds: map<Pos, Record>, unapplied: int, x: seq<byte>)
    requires Recorded(segs, builds, unapplied) && pages != []
    ensures Recorded(Longer(g, pages, segs, x), builds, unapplied + |x|)
    ensures var segs' := Longer(g, pages, segs, x); segs'[|segs'| - 1].at == segs[|segs| - 1].at
  {
    var segs' := Longer(g, pages, segs, x);
    assert forall i :: 0 <= i < |segs| ==> segs'[i].at == segs[i].at;
    forall p | p in builds
      ensures HasSeg(segs', p)
    {
      var i :| 0 <= i < |segs| && segs[i].at == p;
      assert segs'[i].at == p;
    }
  }

  // ---- sizes that pass the checks and still lose data ----

  function WithData(pages: seq<Page>, x: seq<byte>): seq<Page>
    requires pages != []
  {
    var p := pages[|pages| - 1];
    pages[|pages| - 1 := Page(p.mem + x, |p.mem| + |x|)]
  }

  /** The pages after opening a container in an array of a 38-character string and two empty arrays. */
  function Opened(g: Geometry, pages: seq<Page>, header: seq<byte>): seq<Page>
    requires g.align >= 1 && pages != [] && |header| == g.header
  {
    WithRoom(g, Placed(g, pages, header), header)
  }

  /** The records of that array: the string's 40 bytes lie behind the outer one. */
  const SMALL_BUILDS: map<Pos, Record> :=
    map[Pos(0, 16) := Record(None, 40, 3, false, false),
        Pos(0, 80) := Record(At(Pos(0, 16)), 0, 0, false, false),
        Pos(1, 16) := Record(At(Pos(0, 16)), 0, 0, false, false)]

  /**
   24-byte records in 128-byte pages: building [s, [], []] puts the record of the first empty array
   at 80 and turns to a fresh page for the second one, but behind the first one the reader still
   looks at 104 of the old page. Nothing is accounted for there, so it stops, and the message that
   is read out announces three elements and has two.
   */
  lemma SmallRecordsAreLost(g: Geometry, header: seq<byte>, s: seq<byte>, outer: seq<Page>, text: seq<Page>, first: seq<Page>,
                            second: seq<Page>)
    requires g.align == 8 && g.page == 128 && g.header == 16 && g.record == 24
    requires |header| == 16 && |s| == 38 && Fits(Str(s))
    requires outer == Opened(g, [Page(header, 16)], header) && outer != []
    requires text == WithData(outer, Encode(Str(s))) && first == Opened(g, text, header) && first != []
    requires second == Opened(g, first, header)
    ensures Checked(g) && !Usable(g) && |text| == 1 && |first| == 2
    ensures Place(g, Mems([Page(header, 16)])) == Pos(0, 16) && Place(g, Mems(text)) == Pos(0, 80)
    ensures Place(g, Mems(first)) == Pos(1, 16) && Next(g, Pos(0, 80 + g.record)) == Pos(0, 104)
    ensures ReadOut(g, second, SMALL_BUILDS) == Read(ArrayTag(3) + Encode(Str(s)) + ArrayTag(0), Pos(0, 104))
    ensures var v := Array([Str(s), Array([]), Array([])]);
            Fits(v) && Encode(v) == ArrayTag(3) + Encode(Str(s)) + ArrayTag(0) + ArrayTag(0)
  {
    hide Align, Opened, Encode, Mems, Usable, Fits, ArrayTag, ReadFrom;
    SmallGeometry(g);
    AlignBy8(g, 16);
    AlignBy8(g, 80);
    AlignBy8(g, 104);
    StringLength(s);
    OpenedShape(g, [Page(header, 16)], header);
    LastMem([Page(header, 16)]);
    OpenedShape(g, text, header);
    OpenedShape(g, first, header);
    LastMem(text);
    LastMem(first);
    assert text[0].mem[40..80] == Encode(Str(s));
    assert second[0].mem[40..80] == text[0].mem[40..80];
    SmallReading(g, second, Encode(Str(s)));
    SmallEncoding(s);
  }

  lemma SmallReading(g: Geometry, pages: seq<Page>, x: seq<byte>)
    requires g.align == 8 && g.page == 128 && g.header == 16 && g.record == 24 && pages != []
    requires pages[0].used == |pages[0].mem| == 104 && pages[0].mem[40..80] == x
    ensures ReadOut(g, pages, SMALL_BUILDS) == Read(ArrayTag(3) + x + ArrayTag(0), Pos(0, 104))
  {
    hide Align, ArrayTag;
    AlignBy8(g, 16);
    AlignBy8(g, 80);
    AlignBy8(g, 104);
    assert ReadFrom(g, pages, SMALL_BUILDS, Pos(0, 80)) == Read(ArrayTag(0) + [], Pos(0, 104));
  }

  lemma SmallEncoding(s: seq<byte>)
    requires Fits(Str(s))
    ensures var v := Array([Str(s), Array([]), Array([])]);
            Fits(v) && Encode(v) == ArrayTag(3) + Encode(Str(s)) + ArrayTag(0) + ArrayTag(0)
  {
    hide ArrayTag;
    var none: seq<Value> := [];
    var empty := Array(none);
    var items := [Str(s), empty, empty];
    assert items[1..] == [empty, empty] && [empty, empty][1..] == [empty];
    assert AllFit([empty]) && AllFit([empty, empty]) && AllFit(items);
    assert Encode(empty) == ArrayTag(0);
    assert EncodeAll([empty]) == Encode(empty) + EncodeAll([]);
    assert EncodeAll([empty, empty]) == Encode(empty) + EncodeAll([empty, empty][1..]);
    assert EncodeAll(items) == Encode(Str(s)) + EncodeAll(items[1..]);
  }

  lemma SmallGeometry(g: Geometry)
    requires g.align == 8 && g.page == 128 && g.header == 16 && g.record == 24
    ensures Checked(g) && !Usable(g)
  {
    AlignBy8(g, 97);
    hide Align;
  }

  lemma AlignBy8(g: Geometry, n: nat)
    requires g.align == 8
    ensures Align(g, n) == n + 7 - (n + 7) % 8
  {
  }

  lemma StringLength(s: seq<byte>)
    requires |s| == 38
    ensures |Encode(Str(s))| == 40
  {
  }

  lemma LastMem(pages: seq<Page>)
    requires pages != []
    ensures Mems(pages)[|pages| - 1] == pages[|pages| - 1].mem
  {
  }

  lemma OpenedShape(g: Geometry, pages: seq<Page>, header: seq<byte>)
    requires g.align >= 1 && pages != [] && |header| == g.header
    requires Align(g, |pages[|pages| - 1].mem|) + g.record <= g.page
    ensures var r, last := Opened(g, pages, header), |pages| - 1;
            var end := Align(g, |pages[last].mem|) + g.record;
            && |r| == |pages| + (if g.page - end < MIN_BUFFER then 1 else 0)
            && r[..last] == pages[..last] && pages[last].mem <= r[last].mem
            && r[last].used == end == |r[last].mem| && (|r| > |pages| ==> r[last + 1].mem == header)
  {
    hide Align;
  }
}

/** Tag-list pages and the walks over them (logix.rs, commands.rs, eip/session.rs). */
module TagList {
  import opened Prelude
  import opened Wire
  import opened Errors
  import opened Logix
  import opened Utf8

  datatype Symbol = Symbol(id: u32, name: Bytes, typ: u16)

  // ----- one page on the wire -----

  function SymbolBytes(s: Symbol): Bytes {
    Le(s.id, 4) + Le(|s.name|, 2) + s.name + Le(s.typ, 2)
  }

  function PageBytes(page: seq<Symbol>): Bytes {
    if page == [] then [] else SymbolBytes(page[0]) + PageBytes(page[1..])
  }

  /** A name the wire can carry: UTF-8, and no longer than its length field can say. */
  predicate GoodName(s: Symbol) {
    |s.name| <= U16_MAX && ValidUtf8(s.name)
  }

  function SymbolAt(data: Bytes, pos: nat): (r: Result<(Symbol, nat), WireError>)
    requires pos <= |data|
    ensures r.Ok? ==> r.value.1 == pos + 8 + |r.value.0.name| <= |data|
  {
    var id :- U32At(data, pos);
    var len :- U16At(data, pos + 4);
    var name :- TakeAt(data, pos + 6, len);
    if !ValidUtf8(name) then Err(InvalidUtf8)
    else
      var typ :- U16At(data, pos + 6 + len);
      Ok((Symbol(id, name, typ), pos + 8 + len))
  }

  /** A record that fails anywhere fails the whole page. */
  function PageAt(data: Bytes, pos: nat): Result<seq<Symbol>, WireError>
    requires pos <= |data|
    decreases |data| - pos
  {
    if pos == |data| then Ok([])
    else
      var head :- SymbolAt(data, pos);
      var rest :- PageAt(data, head.1);
      Ok([head.0] + rest)
  }

  method ReadSymbol(r: WireReader) returns (res: Result<Symbol, WireError>)
    requires r.Valid()
    modifies r
    ensures r.Valid()
    ensures var parsed := SymbolAt(r.buf, old(r.pos));
            if parsed.Err? then res == Err(parsed.error)
            else res == Ok(parsed.value.0) && r.pos == parsed.value.1
  {
    var id := r.U32();
    if id.Err? {
      return Err(id.error);
    }
    var len := r.U16();
    if len.Err? {
      return Err(len.error);
    }
    var name := r.Take(len.value);
    if name.Err? {
      return Err(name.error);
    }
    if !ValidUtf8(name.value) {
      return Err(InvalidUtf8);
    }
    var typ := r.U16();
    if typ.Err? {
      return Err(typ.error);
    }
    res := Ok(Symbol(id.value, name.value, typ.value));
  }

  ghost function Prepend(done: seq<Symbol>, r: Result<seq<Symbol>, WireError>): Result<seq<Symbol>, WireError> {
    match r case Ok(rest) => Ok(done + rest) case Err(e) => Err(e)
  }

  lemma PrependOneMore(done: seq<Symbol>, s: Symbol, rest: Result<seq<Symbol>, WireError>)
    ensures Prepend([], rest) == rest
    ensures Prepend(done, Prepend([s], rest)) == Prepend(done + [s], rest)
  {
    if rest.Ok? {
      assert [] + rest.value == rest.value;
      assert done + ([s] + rest.value) == (done + [s]) + rest.value;
    }
  }

  method ParseTagList(data: Bytes) returns (res: Result<seq<Symbol>, WireError>)
    ensures res == PageAt(data, 0)
  {
    var r := new WireReader(data);
    var records: seq<Symbol> := [];
    ghost var whole := PageAt(data, 0);
    PrependOneMore([], Symbol(0, [], 0), whole);
    while r.Remaining() > 0
      invariant r.Valid() && r.buf == data
      invariant whole == Prepend(records, PageAt(data, r.pos))
      decreases |data| - r.pos
    {
      var s := ReadSymbol(r);
      if s.Err? {
        return Err(s.error);
      }
      PrependOneMore(records, s.value, PageAt(data, r.pos));
      records := records + [s.value];
    }
    assert records + [] == records;
    res := Ok(records);
  }

  /** The four fields of a printed record are read back one by one. */
  lemma PrintedSymbolFields(data: Bytes, pos: nat, s: Symbol)
    requires |s.name| <= U16_MAX && HasAt(data, pos, SymbolBytes(s))
    ensures pos + |SymbolBytes(s)| <= |data|
    ensures U32At(data, pos) == Ok(s.id) && U16At(data, pos + 4) == Ok(|s.name|)
    ensures TakeAt(data, pos + 6, |s.name|) == Ok(s.name) && U16At(data, pos + 6 + |s.name|) == Ok(s.typ)
  {
    Widths();
    HasAtSplit(data, pos, Le(s.id, 4) + Le(|s.name|, 2) + s.name, Le(s.typ, 2));
    HasAtSplit(data, pos, Le(s.id, 4) + Le(|s.name|, 2), s.name);
    HasAtSplit(data, pos, Le(s.id, 4), Le(|s.name|, 2));
    ReadBack(data, pos, s.id, 4);
    ReadBack(data, pos + 4, |s.name|, 2);
    HasAtSlice(data, pos + 6, s.name);
    ReadBack(data, pos + 6 + |s.name|, s.typ, 2);
  }

  lemma PrintedSymbolParses(data: Bytes, pos: nat, s: Symbol)
    requires GoodName(s) && HasAt(data, pos, SymbolBytes(s))
    ensures SymbolAt(data, pos) == Ok((s, pos + |SymbolBytes(s)|))
  {
    PrintedSymbolFields(data, pos, s);
  }

  lemma {:induction false} PrintedPageParses(data: Bytes, pos: nat, page: seq<Symbol>)
    requires forall i :: 0 <= i < |page| ==> GoodName(page[i])
    requires HasAt(data, pos, PageBytes(page)) && pos + |PageBytes(page)| == |data|
    ensures PageAt(data, pos) == Ok(page)
    decreases page
  {
    if page != [] {
      var s, rest, next := page[0], page[1..], pos + |SymbolBytes(page[0])|;
      assert page == [s] + rest;
      HasAtSplit(data, pos, SymbolBytes(s), PageBytes(rest));
      PrintedSymbolParses(data, pos, s);
      PrintedPageParses(data, next, rest);
      PageAtCons(data, pos, s, next, rest);
    }
  }

  lemma PageAtCons(data: Bytes, pos: nat, s: Symbol, next: nat, rest: seq<Symbol>)
    requires pos < |data| && next <= |data| && SymbolAt(data, pos) == Ok((s, next)) && PageAt(data, next) == Ok(rest)
    ensures PageAt(data, pos) == Ok([s] + rest)
  {
  }

  // ----- list_tags -----

  const LIST_REPLY: byte := 0xD5
  const NOT_ASCENDING := "tag list page is not in ascending instance order"
  const NOT_ADVANCING := "tag list page did not advance"

  predicate Ascending(page: seq<Symbol>) {
    forall i, j :: 0 <= i < j < |page| ==> page[i].id < page[j].id
  }

  /** Every record is above the one before it: what one pass over the page checks. */
  predicate NeighboursAscend(page: seq<Symbol>) {
    forall i :: 0 < i < |page| ==> page[i - 1].id < page[i].id
  }

  lemma {:induction false} NeighboursSuffice(page: seq<Symbol>)
    ensures NeighboursAscend(page) <==> Ascending(page)
  {
    if NeighboursAscend(page) && page != [] {
      var front := page[..|page| - 1];
      NeighboursSuffice(front);
      forall i, j | 0 <= i < j < |page| ensures page[i].id < page[j].id {
        if j == |page| - 1 && i < j - 1 {
          assert front[i].id < front[j - 1].id;
        } else if j < |page| - 1 {
          assert front[i].id < front[j].id;
        }
      }
    }
  }

  datatype Listing = Listing(page: seq<Symbol>, next: Option<u32>)

  /** The resume point a page implies when the device says there is more. */
  function ResumeAfter(page: seq<Symbol>): Option<u32> {
    if page == [] || page[|page| - 1].id == U32_MAX then None else Some(page[|page| - 1].id + 1)
  }

  function ListTags(start: u32, answer: Answer): Result<Listing, EnipError> {
    match answer
    case Fault(e) => Err(e)
    case Answer(service, status, data) =>
      if service != LIST_REPLY then Err(ProtocolViolation(WRONG_SERVICE))
      else if status != STATUS_OK && status != STATUS_PARTIAL then Err(EnipError.Cip(status))
      else match PageAt(data, 0)
        case Err(e) => Err(WireFault(e))
        case Ok(page) =>
          if !NeighboursAscend(page) then Err(ProtocolViolation(NOT_ASCENDING))
          else if status == STATUS_OK then Ok(Listing(page, None))
          else
            var n := ResumeAfter(page);
            if n.Some? && n.value <= start then Err(ProtocolViolation(NOT_ADVANCING)) else Ok(Listing(page, n))
  }

  method ListTagsOnce(start: u32, answer: Answer) returns (r: Result<Listing, EnipError>)
    ensures r == ListTags(start, answer)
  {
    if answer.Fault? {
      return Err(answer.error);
    }
    if answer.service != LIST_REPLY {
      return Err(ProtocolViolation(WRONG_SERVICE));
    }
    var more := answer.status == STATUS_PARTIAL;
    if answer.status != STATUS_OK && !more {
      return Err(EnipError.Cip(answer.status));
    }
    var parsed := ParseTagList(answer.data);
    if parsed.Err? {
      return Err(WireFault(parsed.error));
    }
    var records := parsed.value;
    var previous: Option<u32> := None;
    var i := 0;
    while i < |records|
      invariant 0 <= i <= |records|
      invariant forall k :: 0 < k < i ==> records[k - 1].id < records[k].id
      invariant previous == if i == 0 then None else Some(records[i - 1].id)
    {
      if previous.Some? && records[i].id <= previous.value {
        return Err(ProtocolViolation(NOT_ASCENDING));
      }
      previous := Some(records[i].id);
      i := i + 1;
    }
    var next: Option<u32> := None;
    if more {
      next := ResumeAfter(records);
      if next.Some? && next.value <= start {
        return Err(ProtocolViolation(NOT_ADVANCING));
      }
    }
    r := Ok(Listing(records, next));
  }

  /** What becomes of every page a device can print: refused out of order, resumed after its last record while the device says there is more, refused when that does not advance, and ended at the last instance id or an empty page. */
  lemma ListVerdicts(start: u32, page: seq<Symbol>, more: bool)
    requires forall i :: 0 <= i < |page| ==> GoodName(page[i])
    ensures var r := ListTags(start, Answer(0xD5, if more then 6 else 0, PageBytes(page)));
            if !Ascending(page) then r == Err(ProtocolViolation(NOT_ASCENDING))
            else if !more || page == [] || page[|page| - 1].id == 0xFFFF_FFFF then r == Ok(Listing(page, None))
            else if page[|page| - 1].id < start then r == Err(ProtocolViolation(NOT_ADVANCING))
            else r == Ok(Listing(page, Some(page[|page| - 1].id + 1)))
  {
    var data := PageBytes(page);
    assert HasAt(data, 0, data);
    PrintedPageParses(data, 0, page);
    NeighboursSuffice(page);
    ParsedPageLists(start, data, page, more);
  }

  lemma ParsedPageLists(start: u32, data: Bytes, page: seq<Symbol>, more: bool)
    requires PageAt(data, 0) == Ok(page)
    ensures var r, n := ListTags(start, Answer(0xD5, if more then 6 else 0, data)), ResumeAfter(page);
            r == if !NeighboursAscend(page) then Err(ProtocolViolation(NOT_ASCENDING))
                 else if !more then Ok(Listing(page, None))
                 else if n.Some? && n.value <= start then Err(ProtocolViolation(NOT_ADVANCING))
                 else Ok(Listing(page, n))
  {
  }

  /** Anything but a list reply of status 0 or 6 is refused with what it says. */
  lemma ListRefusals(start: u32, a: Answer)
    ensures a.Fault? ==> ListTags(start, a) == Err(a.error)
    ensures a.Answer? && a.service != 0xD5 ==> ListTags(start, a) == Err(ProtocolViolation(WRONG_SERVICE))
    ensures a.Answer? && a.service == 0xD5 && a.status !in {0, 6} ==> ListTags(start, a) == Err(EnipError.Cip(a.status))
    ensures a.Answer? && a.service == 0xD5 && a.status in {0, 6} && PageAt(a.data, 0).Err? ==> ListTags(start, a) == Err(WireFault(PageAt(a.data, 0).error))
  {
  }

  /** Against any peer a page is strictly ascending and its resume point is past both the start and every record. */
  lemma PageIsSound(start: u32, answer: Answer)
    requires ListTags(start, answer).Ok?
    ensures var l := ListTags(start, answer).value;
            && Ascending(l.page)
            && (l.next.Some? ==> l.next.value > start && l.page != [] && forall i :: 0 <= i < |l.page| ==> l.page[i].id < l.next.value)
  {
    NeighboursSuffice(ListTags(start, answer).value.page);
  }

  // ----- the session's page size and the command's walk -----

  /** Cut at the page size; a cut page resumes after the last record returned, not after the last one served. */
  function Paginate(l: Listing, max: nat): (r: Listing)
    ensures |r.page| == Min(|l.page|, Max(max, 1)) && r.page <= l.page
    ensures |l.page| <= Max(max, 1) ==> r == l
  {
    var limit := Max(max, 1);
    if |l.page| > limit then Listing(l.page[..limit], ResumeAfter(l.page[..limit])) else l
  }

  datatype Cursor = NoMore | Next(n: nat) | NotANumber
  datatype BrowseError = BrowseUnsupported | BrowseFailed | Unavailable | PageCap | CursorStuck | CursorGarbled

  datatype BrowseOutcome = Page(tags: seq<Symbol>, cursor: Cursor) | Refused(error: BrowseError)

  const MAX_BROWSE_PAGES: nat := 1024

  /** Any backend: what it answers to the `page`-th request, which resumes at `cursor`. */
  type Backend = (nat, Option<nat>) -> BrowseOutcome

  /** The rest of a walk that has made `pages` of at most `cap` requests. */
  function BrowseFrom(backend: Backend, cap: nat, pages: nat, cursor: Option<nat>, prevStart: nat): Result<seq<Symbol>, BrowseError>
    decreases cap - pages
  {
    if pages >= cap then Err(PageCap)
    else match backend(pages, cursor)
      case Refused(e) => Err(e)
      case Page(tags, NoMore) => Ok(tags)
      case Page(_, NotANumber) => Err(CursorGarbled)
      case Page(tags, Next(n)) =>
        if n <= prevStart then Err(CursorStuck)
        else
          var rest :- BrowseFrom(backend, cap, pages + 1, Some(n), n);
          Ok(tags + rest)
  }

  ghost function PrependTags(done: seq<Symbol>, r: Result<seq<Symbol>, BrowseError>): Result<seq<Symbol>, BrowseError> {
    match r case Ok(rest) => Ok(done + rest) case Err(e) => Err(e)
  }

  lemma PrependTagsTwice(done: seq<Symbol>, tags: seq<Symbol>, r: Result<seq<Symbol>, BrowseError>)
    ensures PrependTags(done, PrependTags(tags, r)) == PrependTags(done + tags, r)
    ensures PrependTags([], r) == r
  {
    if r.Ok? {
      assert done + (tags + r.value) == (done + tags) + r.value;
      assert [] + r.value == r.value;
    }
  }

  predicate StrictlyIncreasing(s: seq<nat>) {
    forall i, j :: 0 <= i < j < |s| ==> s[i] < s[j]
  }

  /** The walk ends within the page cap whatever the backend does, follows strictly increasing cursors, and returns the concatenation of its pages. */
  method BrowseHierarchical(backend: Backend, cap: nat) returns (r: Result<seq<Symbol>, BrowseError>, followed: seq<nat>)
    ensures r == BrowseFrom(backend, cap, 0, None, 0)
    ensures |followed| <= cap && StrictlyIncreasing(followed)
  {
    var out: seq<Symbol> := [];
    var cursor: Option<nat> := None;
    var prevStart := 0;
    var pages := 0;
    followed := [];
    ghost var whole := BrowseFrom(backend, cap, pages, cursor, prevStart);
    PrependTagsTwice([], [], whole);
    while true
      invariant pages == |followed| <= cap
      invariant whole == PrependTags(out, BrowseFrom(backend, cap, pages, cursor, prevStart))
      invariant StrictlyIncreasing(followed) && forall i :: 0 <= i < |followed| ==> followed[i] <= prevStart
      decreases cap - pages
    {
      pages := pages + 1;
      if pages > cap {
        return Err(PageCap), followed;
      }
      var outcome := backend(pages - 1, cursor);
      if outcome.Refused? {
        return Err(outcome.error), followed;
      }
      if outcome.cursor.NoMore? {
        return Ok(out + outcome.tags), followed;
      }
      if outcome.cursor.NotANumber? {
        return Err(CursorGarbled), followed;
      }
      var n := outcome.cursor.n;
      if n <= prevStart {
        return Err(CursorStuck), followed;
      }
      PrependTagsTwice(out, outcome.tags, BrowseFrom(backend, cap, pages, Some(n), n));
      out := out + outcome.tags;
      followed := followed + [n];
      prevStart, cursor := n, Some(n);
    }
  }

  /** The walk as the command makes it. */
  method BrowseTagList(backend: Backend) returns (r: Result<seq<Symbol>, BrowseError>, followed: seq<nat>)
    ensures r == BrowseFrom(backend, 1024, 0, None, 0)
    ensures |followed| <= 1024 && StrictlyIncreasing(followed)
  {
    r, followed := BrowseHierarchical(backend, MAX_BROWSE_PAGES);
  }

  // ----- a walk over any backend -----

  function PagesJoined(pages: seq<seq<Symbol>>): seq<Symbol> {
    if pages == [] then [] else PagesJoined(pages[..|pages| - 1]) + pages[|pages| - 1]
  }

  /** Where the `k`-th request resumes: nowhere at first, then at the last cursor followed. */
  function CursorAt(cursors: seq<nat>, k: nat): Option<nat>
    requires k <= |cursors|
  {
    if k == 0 then None else Some(cursors[k - 1])
  }

  /** The backend's first answers are pages, each with a cursor past the one before it and past 0. */
  ghost predicate GoodPages(backend: Backend, pages: seq<seq<Symbol>>, cursors: seq<nat>) {
    && |pages| == |cursors|
    && forall i :: 0 <= i < |pages| ==>
         && CursorAt(cursors, i).UnwrapOr(0) < cursors[i]
         && backend(i, CursorAt(cursors, i)) == Page(pages[i], Next(cursors[i]))
  }

  lemma GoodPagesFront(backend: Backend, pages: seq<seq<Symbol>>, cursors: seq<nat>)
    requires GoodPages(backend, pages, cursors) && pages != []
    ensures GoodPages(backend, pages[..|pages| - 1], cursors[..|cursors| - 1])
  {
    var p, c := pages[..|pages| - 1], cursors[..|cursors| - 1];
    forall i | 0 <= i < |p|
      ensures CursorAt(c, i).UnwrapOr(0) < c[i] && backend(i, CursorAt(c, i)) == Page(p[i], Next(c[i]))
    {
      assert CursorAt(c, i) == CursorAt(cursors, i) && c[i] == cursors[i] && p[i] == pages[i];
    }
  }

  lemma {:induction false} WalkGoesOn(backend: Backend, cap: nat, pages: seq<seq<Symbol>>, cursors: seq<nat>)
    requires GoodPages(backend, pages, cursors) && |pages| <= cap
    ensures var at := CursorAt(cursors, |cursors|);
            BrowseFrom(backend, cap, 0, None, 0) == PrependTags(PagesJoined(pages), BrowseFrom(backend, cap, |pages|, at, at.UnwrapOr(0)))
    decreases |pages|
  {
    if pages == [] {
      PrependTagsTwice([], [], BrowseFrom(backend, cap, 0, None, 0));
    } else {
      var k := |pages| - 1;
      var before := CursorAt(cursors[..k], k);
      GoodPagesFront(backend, pages, cursors);
      WalkGoesOn(backend, cap, pages[..k], cursors[..k]);
      assert before == CursorAt(cursors, k);
      WalkOneMore(backend, cap, k, before, before.UnwrapOr(0), pages[k], cursors[k]);
      PrependTagsTwice(PagesJoined(pages[..k]), pages[k], BrowseFrom(backend, cap, k + 1, Some(cursors[k]), cursors[k]));
    }
  }

  /** How the answer after good pages ends a walk over any backend: past the cap, a refusal with exactly its error, a cursor that is no number or does not advance, or the last page with every page before it. */
  lemma WalkEndsAs(backend: Backend, cap: nat, pages: seq<seq<Symbol>>, cursors: seq<nat>)
    requires GoodPages(backend, pages, cursors) && |pages| <= cap
    ensures var at, r := CursorAt(cursors, |cursors|), BrowseFrom(backend, cap, 0, None, 0);
            var a := backend(|pages|, at);
            if |pages| == cap then r == Err(PageCap)
            else
              && (a.Refused? ==> r == Err(a.error))
              && (a.Page? && a.cursor == NotANumber ==> r == Err(CursorGarbled))
              && (a.Page? && a.cursor.Next? && a.cursor.n <= at.UnwrapOr(0) ==> r == Err(CursorStuck))
              && (a.Page? && a.cursor == NoMore ==> r == Ok(PagesJoined(pages) + a.tags))
  {
    WalkGoesOn(backend, cap, pages, cursors);
  }

  // ----- one browse of the session -----

  const SERVICE_NOT_SUPPORTED: nat := 0x08

  /** One `browse` of the session: a device without the service is told from one that refuses to resume by where it was asked to start. */
  function SessionBrowse(peer: nat -> Answer, max: nat, cursor: Option<nat>): BrowseOutcome {
    var start := cursor.UnwrapOr(0);
    if start > U32_MAX then Refused(BrowseFailed)
    else match ListTags(start, peer(start))
      case Err(e) => Refused(if e == EnipError.Cip(SERVICE_NOT_SUPPORTED) && start == 0 then BrowseUnsupported else BrowseFailed)
      case Ok(l) =>
        var cutPage := Paginate(l, max);
        Page(cutPage.page, if cutPage.next.Some? then Next(cutPage.next.value) else NoMore)
  }

  /** Against any peer: a cursor past 32 bits fails, status 8 means there is no tag list only on a first request, any other refusal fails, and an accepted page is ascending and no longer than asked for. */
  lemma BrowseVerdicts(peer: nat -> Answer, max: nat, cursor: Option<nat>)
    ensures var start, r := cursor.UnwrapOr(0), SessionBrowse(peer, max, cursor);
            && (start > 0xFFFF_FFFF ==> r == Refused(BrowseFailed))
            && (start <= 0xFFFF_FFFF && ListTags(start, peer(start)).Err? ==> r.Refused?)
            && (r.Refused? ==> r.error == BrowseUnsupported || r.error == BrowseFailed)
            && (r == Refused(BrowseUnsupported) <==>
                  start == 0 && (peer(0) == Fault(EnipError.Cip(8)) || (peer(0).Answer? && peer(0).service == 0xD5 && peer(0).status == 8)))
            && (r.Page? ==> |r.tags| <= Max(max, 1) && Ascending(r.tags))
  {
    var start := cursor.UnwrapOr(0);
    if start <= U32_MAX && ListTags(start, peer(start)).Ok? {
      PageIsSound(start, peer(start));
    }
  }

  // ----- a conforming device -----

  predicate GoodTable(table: seq<Symbol>) {
    Ascending(table) && forall i :: 0 <= i < |table| ==> GoodName(table[i])
  }

  /** The symbols at or after an instance id. */
  function Remaining(table: seq<Symbol>, start: nat): seq<Symbol> {
    if table == [] || table[0].id >= start then table else Remaining(table[1..], start)
  }

  /** Serves some non-empty prefix of what remains, and says whether anything remains after it. */
  function ServePage(table: seq<Symbol>, cut: nat -> nat, start: nat): Answer {
    var rest := Remaining(table, start);
    var k := Min(Max(cut(start), 1), |rest|);
    PageAnswer(rest[..k], k < |rest|)
  }

  function PageAnswer(page: seq<Symbol>, more: bool): Answer {
    Answer(LIST_REPLY, if more then STATUS_PARTIAL else STATUS_OK, PageBytes(page))
  }

  function DeviceOf(table: seq<Symbol>, cut: nat -> nat): nat -> Answer {
    (start: nat) => ServePage(table, cut, start)
  }

  function ConformingBackend(table: seq<Symbol>, cut: nat -> nat, max: nat): Backend {
    (page: nat, cursor: Option<nat>) => SessionBrowse(DeviceOf(table, cut), max, cursor)
  }

  /** Resume point that leaves exactly `table[i..]` to serve. */
  function StartOf(table: seq<Symbol>, i: nat): nat
    requires i <= |table|
  {
    if i == 0 then 0 else table[i - 1].id + 1
  }

  lemma {:induction false} RemainingIsSuffix(table: seq<Symbol>, i: nat)
    requires Ascending(table) && i <= |table|
    ensures Remaining(table, StartOf(table, i)) == table[i..]
    decreases |table|
  {
    if i > 0 {
      var tail := table[1..];
      assert forall k :: 0 <= k < |tail| ==> tail[k] == table[k + 1];
      assert table[0].id < StartOf(table, i);
      if i == 1 {
        SkipNothing(tail, StartOf(table, 1));
        assert table[1..] == tail;
      } else {
        RemainingIsSuffix(tail, i - 1);
        assert tail[i - 1..] == table[i..];
      }
    }
  }

  lemma SkipNothing(tail: seq<Symbol>, start: nat)
    requires tail != [] ==> tail[0].id >= start
    ensures Remaining(tail, start) == tail
  {
  }

  /** How many symbols one browse returns from position `i`. */
  function PageLength(table: seq<Symbol>, cut: nat -> nat, max: nat, i: nat): (k: nat)
    requires i <= |table|
    ensures k <= |table| - i && (i < |table| ==> k > 0)
  {
    Min(Min(Max(cut(StartOf(table, i)), 1), |table| - i), Max(max, 1))
  }

  /** A printed ascending page is listed as it is. */
  lemma PrintedPageLists(start: u32, page: seq<Symbol>, more: bool)
    requires GoodTable(page)
    requires more && ResumeAfter(page).Some? ==> ResumeAfter(page).value > start
    ensures ListTags(start, PageAnswer(page, more))
         == Ok(Listing(page, if more then ResumeAfter(page) else None))
  {
    var data := PageBytes(page);
    assert HasAt(data, 0, data);
    PrintedPageParses(data, 0, page);
  }

  lemma ServedPage(table: seq<Symbol>, cut: nat -> nat, i: nat, k: nat)
    requires Ascending(table) && i <= |table| && k == Min(Max(cut(StartOf(table, i)), 1), |table| - i)
    ensures ServePage(table, cut, StartOf(table, i)) == PageAnswer(table[i..i + k], i + k < |table|)
  {
    RemainingIsSuffix(table, i);
    assert table[i..][..k] == table[i..i + k];
  }

  lemma SliceIsGood(table: seq<Symbol>, i: nat, k: nat)
    requires GoodTable(table) && i + k <= |table|
    ensures GoodTable(table[i..i + k])
  {
    var page := table[i..i + k];
    forall j | 0 <= j < k ensures page[j] == table[i + j] {
    }
  }

  lemma SliceLists(table: seq<Symbol>, i: nat, k: nat)
    requires GoodTable(table) && i + k <= |table| && StartOf(table, i) <= U32_MAX && (i < |table| ==> k > 0)
    ensures ListTags(StartOf(table, i), PageAnswer(table[i..i + k], i + k < |table|)) == Ok(ListingFrom(table, i, k))
  {
    SliceIsGood(table, i, k);
    if i + k < |table| {
      ResumesAtNext(table, i, k);
    }
    PrintedPageLists(StartOf(table, i), table[i..i + k], i + k < |table|);
  }

  /** What the crate makes of the page the device serves at position `i`. */
  lemma OneListing(table: seq<Symbol>, cut: nat -> nat, i: nat, k: nat)
    requires GoodTable(table) && i <= |table| && StartOf(table, i) <= U32_MAX
    requires k == Min(Max(cut(StartOf(table, i)), 1), |table| - i)
    ensures ListTags(StartOf(table, i), ServePage(table, cut, StartOf(table, i)))
         == Ok(ListingFrom(table, i, k))
  {
    SliceLists(table, i, k);
    ServedPage(table, cut, i, k);
  }

  lemma ResumesAtNext(table: seq<Symbol>, i: nat, k: nat)
    requires Ascending(table) && k > 0 && i + k < |table|
    ensures ResumeAfter(table[i..i + k]) == Some(StartOf(table, i + k))
    ensures StartOf(table, i) < StartOf(table, i + k) <= U32_MAX
  {
    assert table[i..i + k][k - 1] == table[i + k - 1];
    assert table[i + k - 1].id < table[i + k].id;
    assert i > 0 ==> table[i - 1].id < table[i + k - 1].id;
  }

  /** One browse returns the next symbols in order and resumes right after them, or ends when none remain. */
  lemma OneBrowse(table: seq<Symbol>, cut: nat -> nat, max: nat, i: nat, cursor: Option<nat>)
    requires GoodTable(table) && i <= |table| && StartOf(table, i) <= U32_MAX
    requires cursor.UnwrapOr(0) == StartOf(table, i)
    ensures SessionBrowse(DeviceOf(table, cut), max, cursor) == PageFrom(table, i, PageLength(table, cut, max, i))
  {
    var served := Min(Max(cut(StartOf(table, i)), 1), |table| - i);
    OneListing(table, cut, i, served);
    CutListing(table, i, served, max);
    BrowseIsCutListing(table, cut, max, cursor, ListingFrom(table, i, served));
  }

  lemma BrowseIsCutListing(table: seq<Symbol>, cut: nat -> nat, max: nat, cursor: Option<nat>, l: Listing)
    requires cursor.UnwrapOr(0) <= U32_MAX && ListTags(cursor.UnwrapOr(0), ServePage(table, cut, cursor.UnwrapOr(0))) == Ok(l)
    ensures var cutPage := Paginate(l, max);
            SessionBrowse(DeviceOf(table, cut), max, cursor) == Page(cutPage.page, if cutPage.next.Some? then Next(cutPage.next.value) else NoMore)
  {
  }

  /** The symbols from `i` to `i + k`, and where the rest starts. */
  function ListingFrom(table: seq<Symbol>, i: nat, k: nat): Listing
    requires i + k <= |table|
  {
    Listing(table[i..i + k], if i + k < |table| then ResumeAfter(table[i..i + k]) else None)
  }

  lemma CutListing(table: seq<Symbol>, i: nat, served: nat, max: nat)
    requires Ascending(table) && i + served <= |table| && (i < |table| ==> served > 0)
    ensures var k, cutPage := Min(served, Max(max, 1)), Paginate(ListingFrom(table, i, served), max);
            && cutPage.page == table[i..i + k]
            && cutPage.next == if i + k < |table| then Some(StartOf(table, i + k)) else None
  {
    var k := Min(served, Max(max, 1));
    assert table[i..i + served][..k] == table[i..i + k];
    if i + k < |table| {
      ResumesAtNext(table, i, k);
    }
  }

  function PageFrom(table: seq<Symbol>, i: nat, k: nat): BrowseOutcome
    requires i + k <= |table|
  {
    Page(table[i..i + k], if i + k < |table| then Next(StartOf(table, i + k)) else NoMore)
  }

  /** A page length for every position of `n` symbols: never more than remain, and none only at the end. */
  predicate GoodCuts(n: nat, len: nat -> nat) {
    forall i :: 0 <= i <= n ==> len(i) <= n - i && (i < n ==> len(i) > 0)
  }

  /** Requests a walk needs from position `i`. */
  function PagesNeeded(n: nat, len: nat -> nat, i: nat): (pages: nat)
    requires i <= n && GoodCuts(n, len)
    ensures pages >= 1
    decreases n - i
  {
    if i + len(i) == n then 1 else 1 + PagesNeeded(n, len, i + len(i))
  }

  /** The backend answers every resume point with the symbols from there on. */
  ghost predicate Conforms(backend: Backend, table: seq<Symbol>, len: nat -> nat) {
    && GoodCuts(|table|, len)
    && forall i {:trigger AnswersFrom(backend, table, i, len(i))} :: 0 <= i <= |table| && StartOf(table, i) <= U32_MAX ==> AnswersFrom(backend, table, i, len(i))
  }

  ghost predicate AnswersFrom(backend: Backend, table: seq<Symbol>, i: nat, k: nat)
    requires i + k <= |table|
  {
    forall page: nat, cursor: Option<nat> :: cursor.UnwrapOr(0) == StartOf(table, i) ==> backend(page, cursor) == PageFrom(table, i, k)
  }

  lemma {:induction false} WalkFrom(backend: Backend, table: seq<Symbol>, len: nat -> nat, cap: nat, i: nat, pages: nat, cursor: Option<nat>, prevStart: nat)
    requires GoodTable(table) && Conforms(backend, table, len) && i <= |table| && StartOf(table, i) <= U32_MAX
    requires cursor.UnwrapOr(0) == prevStart == StartOf(table, i)
    ensures BrowseFrom(backend, cap, pages, cursor, prevStart)
         == if pages + PagesNeeded(|table|, len, i) <= cap then Ok(table[i..]) else Err(PageCap)
    decreases |table| - i
  {
    if pages < cap {
      var k := len(i);
      assert AnswersFrom(backend, table, i, k);
      WalkStep(backend, table, k, cap, i, pages, cursor, prevStart);
      if i + k < |table| {
        var next := StartOf(table, i + k);
        WalkFrom(backend, table, len, cap, i + k, pages + 1, Some(next), next);
        SliceThenRest(table, i, k);
        assert PagesNeeded(|table|, len, i) == 1 + PagesNeeded(|table|, len, i + k);
      } else {
        assert PagesNeeded(|table|, len, i) == 1;
      }
    }
  }

  lemma WalkStep(backend: Backend, table: seq<Symbol>, k: nat, cap: nat, i: nat, pages: nat, cursor: Option<nat>, prevStart: nat)
    requires Ascending(table) && i + k <= |table| && (i < |table| ==> k > 0)
    requires prevStart == StartOf(table, i) && pages < cap && backend(pages, cursor) == PageFrom(table, i, k)
    ensures if i + k == |table| then BrowseFrom(backend, cap, pages, cursor, prevStart) == Ok(table[i..])
            else
              var next := StartOf(table, i + k);
              && next <= U32_MAX
              && BrowseFrom(backend, cap, pages, cursor, prevStart)
                 == PrependTags(table[i..i + k], BrowseFrom(backend, cap, pages + 1, Some(next), next))
  {
    if i + k < |table| {
      ResumesAtNext(table, i, k);
      WalkOneMore(backend, cap, pages, cursor, prevStart, table[i..i + k], StartOf(table, i + k));
    } else {
      SliceThenRest(table, i, k);
      WalkEnds(backend, cap, pages, cursor, prevStart, table[i..]);
    }
  }

  lemma SliceThenRest(table: seq<Symbol>, i: nat, k: nat)
    requires i + k <= |table|
    ensures table[i..i + k] + table[i + k..] == table[i..]
    ensures i + k == |table| ==> table[i..i + k] == table[i..]
  {
  }

  lemma WalkEnds(backend: Backend, cap: nat, pages: nat, cursor: Option<nat>, prevStart: nat, page: seq<Symbol>)
    requires pages < cap && backend(pages, cursor) == Page(page, NoMore)
    ensures BrowseFrom(backend, cap, pages, cursor, prevStart) == Ok(page)
  {
  }

  lemma WalkOneMore(backend: Backend, cap: nat, pages: nat, cursor: Option<nat>, prevStart: nat, page: seq<Symbol>, next: nat)
    requires pages < cap && backend(pages, cursor) == Page(page, Next(next)) && prevStart < next
    ensures BrowseFrom(backend, cap, pages, cursor, prevStart)
         == PrependTags(page, BrowseFrom(backend, cap, pages + 1, Some(next), next))
  {
  }

  function Lengths(table: seq<Symbol>, cut: nat -> nat, max: nat): nat -> nat {
    (i: nat) => if i <= |table| then PageLength(table, cut, max, i) else 0
  }

  lemma SessionConforms(table: seq<Symbol>, cut: nat -> nat, max: nat)
    requires GoodTable(table)
    ensures Conforms(ConformingBackend(table, cut, max), table, Lengths(table, cut, max))
  {
    forall i | 0 <= i <= |table| && StartOf(table, i) <= U32_MAX
      ensures AnswersFrom(ConformingBackend(table, cut, max), table, i, Lengths(table, cut, max)(i))
    {
      forall page: nat, cursor: Option<nat> | cursor.UnwrapOr(0) == StartOf(table, i)
        ensures ConformingBackend(table, cut, max)(page, cursor) == PageFrom(table, i, Lengths(table, cut, max)(i))
      {
        OneBrowse(table, cut, max, i, cursor);
      }
    }
  }

  /** Over a conforming device, however it cuts its pages and whatever the page size, the walk returns every symbol once and in order exactly when it needs no more than the page cap. */
  lemma WalkIsComplete(table: seq<Symbol>, cut: nat -> nat, max: nat, cap: nat)
    requires GoodTable(table)
    ensures GoodCuts(|table|, Lengths(table, cut, max))
    ensures BrowseFrom(ConformingBackend(table, cut, max), cap, 0, None, 0)
         == if PagesNeeded(|table|, Lengths(table, cut, max), 0) <= cap then Ok(table) else Err(PageCap)
  {
    SessionConforms(table, cut, max);
    WalkFrom(ConformingBackend(table, cut, max), table, Lengths(table, cut, max), cap, 0, 0, None, 0);
    assert table[0..] == table;
  }

  // ----- following resume points without a page cap -----

  /** Listing a device's symbols page by page, as a caller sees it. */
  type Lister = u32 -> Result<Listing, EnipError>

  function ListerOf(peer: nat -> Answer): Lister {
    (start: u32) => ListTags(start, peer(start))
  }

  ghost predicate Advances(list: Lister) {
    forall start: u32 :: list(start).Ok? && list(start).value.next.Some? ==> list(start).value.next.value > start
  }

  /** Against any peer every resume point lies past its start. */
  lemma EveryListerAdvances(peer: nat -> Answer)
    ensures Advances(ListerOf(peer))
  {
    forall start: u32 | ListerOf(peer)(start).Ok? && ListerOf(peer)(start).value.next.Some?
      ensures ListerOf(peer)(start).value.next.value > start
    {
      PageIsSound(start, peer(start));
    }
  }

  /** A caller that follows every resume point: the walk ends against any peer, before the instance ids run out. */
  function FollowTags(list: Lister, start: u32): Result<seq<Symbol>, EnipError>
    requires Advances(list)
    decreases U32_MAX - start
  {
    match list(start)
    case Err(e) => Err(e)
    case Ok(l) =>
      if l.next.None? then Ok(l.page)
      else
        var rest :- FollowTags(list, l.next.value);
        Ok(l.page + rest)
  }

  /** The listing from every position is the next `len` symbols, and where the rest starts. */
  ghost predicate ListsFrom(list: Lister, table: seq<Symbol>, len: nat -> nat) {
    && GoodCuts(|table|, len)
    && forall i {:trigger ListsAt(list, table, i, len(i))} :: 0 <= i <= |table| && StartOf(table, i) <= U32_MAX ==> ListsAt(list, table, i, len(i))
  }

  ghost predicate ListsAt(list: Lister, table: seq<Symbol>, i: nat, k: nat)
    requires i + k <= |table| && StartOf(table, i) <= U32_MAX
  {
    list(StartOf(table, i)) == Ok(ListingFrom(table, i, k))
  }

  lemma {:induction false} FollowRest(list: Lister, table: seq<Symbol>, len: nat -> nat, i: nat)
    requires Advances(list) && GoodTable(table) && ListsFrom(list, table, len) && i <= |table| && StartOf(table, i) <= U32_MAX
    ensures FollowTags(list, StartOf(table, i)) == Ok(table[i..])
    decreases |table| - i
  {
    var k := len(i);
    assert ListsAt(list, table, i, k);
    SliceThenRest(table, i, k);
    if i + k < |table| {
      ResumesAtNext(table, i, k);
      FollowRest(list, table, len, i + k);
    }
  }

  function ServedAt(table: seq<Symbol>, cut: nat -> nat, i: nat): (k: nat)
    requires i <= |table|
    ensures k <= |table| - i && (i < |table| ==> k > 0)
  {
    Min(Max(cut(StartOf(table, i)), 1), |table| - i)
  }

  function Served(table: seq<Symbol>, cut: nat -> nat): nat -> nat {
    (i: nat) => if i <= |table| then ServedAt(table, cut, i) else 0
  }

  lemma DeviceListsFrom(table: seq<Symbol>, cut: nat -> nat)
    requires GoodTable(table)
    ensures ListsFrom(ListerOf(DeviceOf(table, cut)), table, Served(table, cut))
  {
    forall i | 0 <= i <= |table| && StartOf(table, i) <= U32_MAX
      ensures ListsAt(ListerOf(DeviceOf(table, cut)), table, i, Served(table, cut)(i))
    {
      OneListing(table, cut, i, ServedAt(table, cut, i));
    }
  }

  /** From instance 0, over a conforming device however it cuts its pages, every symbol is visited once and in order. */
  lemma FollowIsComplete(table: seq<Symbol>, cut: nat -> nat)
    requires GoodTable(table)
    ensures Advances(ListerOf(DeviceOf(table, cut)))
    ensures FollowTags(ListerOf(DeviceOf(table, cut)), 0) == Ok(table)
  {
    var list := ListerOf(DeviceOf(table, cut));
    EveryListerAdvances(DeviceOf(table, cut));
    DeviceListsFrom(table, cut);
    FollowRest(list, table, Served(table, cut), 0);
    assert table[0..] == table;
  }

  // ----- the configured layout of a push device -----

  /** One page of a fixed list from an index, and the index to resume at while entries remain. */
  function LayoutPage<T>(all: seq<T>, start: nat, max: nat): (r: (seq<T>, Option<nat>))
    ensures |r.0| == Min(Max(max, 1), |all| - Min(start, |all|))
    ensures r.1 == if start + Max(max, 1) < |all| then Some(start + Max(max, 1)) else None
  {
    var from := Min(start, |all|);
    var end := Min(from + Max(max, 1), |all|);
    (all[from..end], if start + (end - from) < |all| then Some(start + (end - from)) else None)
  }

  function LayoutWalk<T>(all: seq<T>, start: nat, max: nat): seq<T>
    decreases |all| - Min(start, |all|)
  {
    var (page, next) := LayoutPage(all, start, max);
    if next.None? then page else page + LayoutWalk(all, next.value, max)
  }

  /** Following the cursors from any index serves the rest of the list once and in order, for any page size. */
  lemma {:induction false} LayoutWalkIsComplete<T>(all: seq<T>, start: nat, max: nat)
    ensures LayoutWalk(all, start, max) == all[Min(start, |all|)..]
    decreases |all| - Min(start, |all|)
  {
    var (page, next) := LayoutPage(all, start, max);
    if next.Some? {
      LayoutWalkIsComplete(all, next.value, max);
    }
  }
}

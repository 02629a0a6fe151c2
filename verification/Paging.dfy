/** Cursor paging over fetches whose size is doubled until they reach far enough, and paging over a list at hand. */
module Paging {
  import opened Wrappers

  /** A page, and the cursor of the next one. */
  datatype Page<T, C> = Page(data: seq<T>, next: Option<C>)

  /** `ApiPagedResponse.of`: a full page has a next one, whose cursor is its last item. */
  function PageOf<T, C>(data: seq<T>, limit: nat, cursor: T -> C): Page<T, C> {
    if |data| == limit && |data| > 0 && limit > 0 then Page(data, Some(cursor(data[limit - 1]))) else Page(data, None)
  }

  /** `slice`, which stops at the end. */
  function Slice<T>(s: seq<T>, start: nat, end: nat): seq<T> {
    if start >= |s| || end <= start then [] else if end >= |s| then s[start..] else s[start..end]
  }

  /** A page from `i` on, up to `n`: a full one leads on behind its last item, any other is all that is left. */
  lemma PageFrom<T, C>(items: seq<T>, i: nat, size: nat, n: nat, cursor: T -> C)
    requires size > 0 && i <= |items| && n == i + size
    ensures var page := PageOf(Slice(items, i, i + size), size, cursor);
      if n <= |items| then page.next == Some(cursor(items[n - 1])) && page.data + items[n..] == items[i..]
      else page == Page(items[i..], None)
  {
    var data := Slice(items, i, i + size);
    if n <= |items| {
      assert data == items[i..n] && data[size - 1] == items[n - 1];
      assert items[i..] == items[i..n] + items[n..];
    } else {
      assert data == items[i..];
    }
  }

  /** Everything that following the cursors shows, for at most `pages` pages. */
  function Crawl<T, C>(ask: Option<C> -> Page<T, C>, next: Option<C>, pages: nat): seq<T>
    decreases pages
  {
    if pages == 0 then []
    else
      var page := ask(next);
      if page.next.None? then page.data else page.data + Crawl(ask, page.next, pages - 1)
  }

  /** What is asked for is the page from item `i` on. */
  ghost predicate Leads<T, C>(ask: Option<C> -> Page<T, C>, items: seq<T>, size: nat, cursor: T -> C, next: Option<C>,
                              i: nat)
  {
    i <= |items| && ask(next) == PageOf(Slice(items, i, i + size), size, cursor)
  }

  /** The cursor of the item before `j` leads to `j`. */
  ghost predicate LeadsTo<T, C>(ask: Option<C> -> Page<T, C>, items: seq<T>, size: nat, cursor: T -> C, j: nat) {
    0 < j <= |items| && Leads(ask, items, size, cursor, Some(cursor(items[j - 1])), j)
  }

  /** If every cursor leads to what is behind its item, following them yields all that is left, every item once and in
      order, in as many pages as there are items or fewer. */
  lemma {:induction false} CrawlYieldsTheRest<T, C>(ask: Option<C> -> Page<T, C>, items: seq<T>, size: nat,
                                                    cursor: T -> C, next: Option<C>, i: nat, pages: nat)
    requires size > 0 && Leads(ask, items, size, cursor, next, i) && pages > |items| - i
    requires forall j: nat :: i < j <= |items| ==> LeadsTo(ask, items, size, cursor, j)
    ensures Crawl(ask, next, pages) == items[i..]
    decreases pages
  {
    var n := i + size;
    PageFrom(items, i, size, n, cursor);
    if n <= |items| {
      assert LeadsTo(ask, items, size, cursor, n);
      CrawlYieldsTheRest(ask, items, size, cursor, Some(cursor(items[n - 1])), n, pages - 1);
    }
  }

  // Account history.

  datatype Entry = Entry(txid: string, txType: string, height: nat)

  datatype Cursor = Cursor(txid: string, txType: string, height: nat)

  function CursorOf(e: Entry): Cursor {
    Cursor(e.txid, e.txType, e.height)
  }

  predicate Names(c: Cursor, e: Entry) {
    e.txid == c.txid && e.txType == c.txType
  }

  predicate InOrder(full: seq<Entry>, i: int, j: int)
    requires 0 <= i < j < |full|
  {
    full[i].height >= full[j].height && (full[i].txid != full[j].txid || full[i].txType != full[j].txType)
  }

  /** Newest first, and an entry is named by its transaction and type. */
  ghost predicate IsHistory(full: seq<Entry>) {
    forall i, j :: 0 <= i < j < |full| ==> InOrder(full, i, j)
  }

  /** What the node has at or below a height. */
  function AtOrBelow(full: seq<Entry>, height: nat): seq<Entry> {
    if full == [] then [] else (if full[0].height <= height then [full[0]] else []) + AtOrBelow(full[1..], height)
  }

  function FindIndex(list: seq<Entry>, c: Cursor): Option<nat> {
    if list == [] then None
    else if Names(c, list[0]) then Some(0)
    else
      var i := FindIndex(list[1..], c);
      if i.None? then None else Some(i.value + 1)
  }

  lemma {:induction false} FindIndexIff(list: seq<Entry>, c: Cursor)
    ensures FindIndex(list, c).None? <==> forall i :: 0 <= i < |list| ==> !Names(c, list[i])
    ensures FindIndex(list, c).Some? ==>
      FindIndex(list, c).value < |list| && Names(c, list[FindIndex(list, c).value])
    ensures FindIndex(list, c).Some? ==> forall i :: 0 <= i < FindIndex(list, c).value ==> !Names(c, list[i])
    decreases |list|
  {
    if list != [] {
      FindIndexIff(list[1..], c);
      assert forall i :: 0 < i < |list| ==> list[i] == list[1..][i - 1];
    }
  }

  /** One round: a result, or nothing when it has to be tried with twice the limit. */
  function Round(below: seq<Entry>, c: Cursor, size: nat, limit: nat): Option<seq<Entry>> {
    var list := Slice(below, 0, limit);
    if |list| == 0 then Some([])
    else
      var isLastBatch := |list| != limit;
      var found := FindIndex(list, c);
      if found.None? then None
      else
        var sliced := Slice(list, found.value + 1, found.value + 1 + size);
        if |sliced| != size && !isLastBatch then None else Some(sliced)
  }

  /** The recursion, cut off after `fuel` rounds. */
  function Rounds(below: seq<Entry>, c: Cursor, size: nat, limit: nat, fuel: nat): Option<seq<Entry>>
    decreases fuel
  {
    if fuel == 0 then None
    else
      var r := Round(below, c, size, limit);
      if r.Some? then r else Rounds(below, c, size, limit * 2, fuel - 1)
  }

  /** A cursor found in the beginning is found there at the same place. */
  lemma FoundInPrefix(below: seq<Entry>, list: seq<Entry>, c: Cursor)
    requires list <= below && FindIndex(list, c).Some?
    ensures FindIndex(below, c) == FindIndex(list, c)
  {
    FindIndexIff(below, c);
    FindIndexIff(list, c);
    var j := FindIndex(list, c).value;
    assert Names(c, below[j]);
    var i := FindIndex(below, c).value;
    assert i < |list| ==> Names(c, list[i]);
  }

  /** A round that answers gives the entries behind the cursor; a limit above all there is does answer. */
  lemma RoundAnswers(below: seq<Entry>, c: Cursor, size: nat, limit: nat)
    requires limit > 0 && FindIndex(below, c).Some?
    ensures var i := FindIndex(below, c).value;
      && (Round(below, c, size, limit).Some? ==>
        Round(below, c, size, limit).value == Slice(below, i + 1, i + 1 + size))
      && (limit > |below| ==> Round(below, c, size, limit).Some?)
  {
    var list := Slice(below, 0, limit);
    assert list <= below;
    LimitTakesSome(below, limit);
    if FindIndex(list, c).Some? {
      FoundInPrefix(below, list, c);
      RoundFinds(below, c, size, limit, list, FindIndex(list, c).value + 1);
    }
  }

  lemma RoundFinds(below: seq<Entry>, c: Cursor, size: nat, limit: nat, list: seq<Entry>, start: nat)
    requires list == Slice(below, 0, limit) && list <= below && (|list| == limit || list == below)
    requires list != [] && FindIndex(list, c).Some? && start == FindIndex(list, c).value + 1
    ensures Round(below, c, size, limit).Some? ==>
      Round(below, c, size, limit).value == Slice(below, start, start + size)
    ensures limit > |below| ==> Round(below, c, size, limit).Some?
  {
    if |Slice(list, start, start + size)| == size || |list| != limit {
      SliceOfPrefix(below, list, start, size);
    }
  }

  lemma LimitTakesSome(below: seq<Entry>, limit: nat)
    requires limit > 0
    ensures if limit <= |below| then |Slice(below, 0, limit)| == limit else Slice(below, 0, limit) == below
  {
  }

  lemma SliceOfPrefix<T>(s: seq<T>, prefix: seq<T>, start: nat, size: nat)
    requires prefix <= s && (|Slice(prefix, start, start + size)| == size || prefix == s)
    ensures Slice(prefix, start, start + size) == Slice(s, start, start + size)
  {
  }

  /** A round that fails to find a cursor that is not there never answers. */
  lemma RoundNeverAnswers(below: seq<Entry>, c: Cursor, size: nat, limit: nat)
    requires limit > 0 && below != [] && FindIndex(below, c).None?
    ensures Round(below, c, size, limit).None?
  {
    var list := Slice(below, 0, limit);
    FindIndexIff(below, c);
    FindIndexIff(list, c);
  }

  /** How many rounds are enough. */
  function Enough(length: nat, limit: nat): nat
    requires limit > 0
    decreases if limit <= length then length - limit + 1 else 0
  {
    if limit > length then 1 else 1 + Enough(length, limit * 2)
  }

  lemma {:induction false} EnoughRounds(below: seq<Entry>, c: Cursor, size: nat, limit: nat)
    requires limit > 0 && FindIndex(below, c).Some?
    ensures var i := FindIndex(below, c).value;
      Rounds(below, c, size, limit, Enough(|below|, limit)) == Some(Slice(below, i + 1, i + 1 + size))
    decreases if limit <= |below| then |below| - limit + 1 else 0
  {
    RoundAnswers(below, c, size, limit);
    if limit <= |below| {
      EnoughRounds(below, c, size, limit * 2);
    }
  }

  lemma {:induction false} NoRounds(below: seq<Entry>, c: Cursor, size: nat, limit: nat, fuel: nat)
    requires limit > 0 && below != [] && FindIndex(below, c).None?
    ensures Rounds(below, c, size, limit, fuel).None?
    decreases fuel
  {
    if fuel > 0 {
      RoundNeverAnswers(below, c, size, limit);
      NoRounds(below, c, size, limit * 2, fuel - 1);
    }
  }

  /** The recursion ends exactly when the cursor exists, or when nothing at all is at or below its height. */
  lemma LoopEndsIff(below: seq<Entry>, c: Cursor, size: nat, limit: nat)
    requires limit > 0
    ensures (exists fuel :: Rounds(below, c, size, limit, fuel).Some?) <==> below == [] || FindIndex(below, c).Some?
  {
    if below == [] {
      assert Rounds(below, c, size, limit, 1).Some?;
    } else if FindIndex(below, c).Some? {
      EnoughRounds(below, c, size, limit);
      assert Rounds(below, c, size, limit, Enough(|below|, limit)).Some?;
    } else {
      forall fuel: nat ensures Rounds(below, c, size, limit, fuel).None? {
        NoRounds(below, c, size, limit, fuel);
      }
    }
  }

  /** `loop`, with the doubled limit as its changed argument. */
  function Loop(below: seq<Entry>, c: Cursor, size: nat, limit: nat): seq<Entry>
    requires limit > 0 && FindIndex(below, c).Some?
    decreases if limit <= |below| then |below| - limit + 1 else 0
  {
    RoundAnswers(below, c, size, limit);
    var r := Round(below, c, size, limit);
    if r.Some? then r.value else Loop(below, c, size, limit * 2)
  }

  lemma {:induction false} LoopIsTheNextSlice(below: seq<Entry>, c: Cursor, size: nat, limit: nat)
    requires limit > 0 && FindIndex(below, c).Some?
    ensures var i := FindIndex(below, c).value; Loop(below, c, size, limit) == Slice(below, i + 1, i + 1 + size)
    decreases if limit <= |below| then |below| - limit + 1 else 0
  {
    RoundAnswers(below, c, size, limit);
    if Round(below, c, size, limit).None? {
      LoopIsTheNextSlice(below, c, size, limit * 2);
    }
  }

  /** The cursor of an entry of this history. */
  ghost predicate Exists(full: seq<Entry>, c: Cursor) {
    exists i :: 0 <= i < |full| && CursorOf(full[i]) == c
  }

  lemma TailIsHistory(full: seq<Entry>)
    requires IsHistory(full) && full != []
    ensures IsHistory(full[1..])
  {
    forall i, j | 0 <= i < j < |full[1..]| ensures InOrder(full[1..], i, j) {
      assert InOrder(full, i + 1, j + 1);
    }
  }

  lemma {:induction false} BelowIsASuffix(full: seq<Entry>, height: nat) returns (k: nat)
    requires IsHistory(full)
    ensures k <= |full| && AtOrBelow(full, height) == full[k..]
    ensures forall i :: 0 <= i < k ==> full[i].height > height
    decreases |full|
  {
    if full == [] {
      k := 0;
    } else {
      TailIsHistory(full);
      var n := BelowIsASuffix(full[1..], height);
      if full[0].height <= height {
        if |full| > 1 {
          assert InOrder(full, 0, 1);
        }
        k := 0;
        assert [full[0]] + full[1..] == full;
      } else {
        k := n + 1;
      }
    }
  }

  /** Where the cursor is among the entries at or below its height, and where that is in all. */
  lemma CursorIsBelow(full: seq<Entry>, i: nat)
    requires IsHistory(full) && i < |full|
    ensures var c := CursorOf(full[i]); var below := AtOrBelow(full, c.height);
      |below| <= |full| && i >= |full| - |below| && below == full[|full| - |below|..]
      && FindIndex(below, c) == Some(i - (|full| - |below|))
  {
    var c := CursorOf(full[i]);
    var k := BelowIsASuffix(full, c.height);
    var below := AtOrBelow(full, c.height);
    assert below[i - k] == full[i];
    FindIndexIff(below, c);
    var j := FindIndex(below, c).value;
    assert full[k + j] == below[j];
    assert k + j < i ==> InOrder(full, k + j, i);
  }

  lemma ExistingIsFound(full: seq<Entry>, c: Cursor)
    requires IsHistory(full) && Exists(full, c)
    ensures FindIndex(AtOrBelow(full, c.height), c).Some?
  {
    var i :| 0 <= i < |full| && CursorOf(full[i]) == c;
    CursorIsBelow(full, i);
  }

  function ListAccountHistory(full: seq<Entry>, size: nat, next: Option<Cursor>): Page<Entry, Cursor>
    requires IsHistory(full) && size > 0 && (next.Some? ==> Exists(full, next.value))
  {
    var limit := if size > 200 then 200 else size;
    var list :=
      if next.Some? then
        ExistingIsFound(full, next.value);
        Loop(AtOrBelow(full, next.value.height), next.value, size, limit)
      else Slice(full, 0, limit);
    PageOf(list, size, CursorOf)
  }

  lemma SliceOfSuffix<T>(s: seq<T>, k: nat, suffix: seq<T>, start: nat, from: nat, size: nat)
    requires k <= |s| && suffix == s[k..] && from == k + start
    ensures Slice(suffix, start, start + size) == Slice(s, from, from + size)
  {
  }

  /** A cursor leads to the entries behind its own. */
  lemma ListBehind(full: seq<Entry>, size: nat, c: Cursor, j: nat)
    requires IsHistory(full) && size > 0 && 0 < j <= |full| && c == CursorOf(full[j - 1]) && Exists(full, c)
    ensures ListAccountHistory(full, size, Some(c)) == PageOf(Slice(full, j, j + size), size, CursorOf)
  {
    ListsTheLoop(full, size, c);
    LoopBehind(full, size, c, j, if size > 200 then 200 else size);
  }

  lemma LoopBehind(full: seq<Entry>, size: nat, c: Cursor, j: nat, limit: nat)
    requires IsHistory(full) && 0 < j <= |full| && c == CursorOf(full[j - 1]) && limit > 0
    requires FindIndex(AtOrBelow(full, c.height), c).Some?
    ensures Loop(AtOrBelow(full, c.height), c, size, limit) == Slice(full, j, j + size)
  {
    CursorIsBelow(full, j - 1);
    LoopFromSuffix(full, AtOrBelow(full, c.height), c, size, limit, j);
  }

  lemma LoopFromSuffix(full: seq<Entry>, below: seq<Entry>, c: Cursor, size: nat, limit: nat, from: nat)
    requires limit > 0 && |below| <= |full| && below == full[|full| - |below|..]
    requires FindIndex(below, c).Some? && from == FindIndex(below, c).value + 1 + (|full| - |below|)
    ensures Loop(below, c, size, limit) == Slice(full, from, from + size)
  {
    LoopIsTheNextSlice(below, c, size, limit);
    SliceOfSuffix(full, |full| - |below|, below, FindIndex(below, c).value + 1, from, size);
  }

  lemma ListsTheLoop(full: seq<Entry>, size: nat, c: Cursor)
    requires IsHistory(full) && size > 0 && Exists(full, c)
    ensures FindIndex(AtOrBelow(full, c.height), c).Some?
    ensures ListAccountHistory(full, size, Some(c))
         == PageOf(Loop(AtOrBelow(full, c.height), c, size, if size > 200 then 200 else size), size, CursorOf)
  {
    ExistingIsFound(full, c);
  }

  /** The history as a client asks for it. No cursor that it is given leads outside. */
  ghost function Ask(full: seq<Entry>, size: nat): Option<Cursor> -> Page<Entry, Cursor>
    requires IsHistory(full) && size > 0
  {
    (next: Option<Cursor>) =>
      if next.Some? && !Exists(full, next.value) then Page([], None) else ListAccountHistory(full, size, next)
  }

  lemma AskLists(full: seq<Entry>, size: nat, c: Cursor)
    requires IsHistory(full) && size > 0 && Exists(full, c)
    ensures Ask(full, size)(Some(c)) == ListAccountHistory(full, size, Some(c))
  {
  }

  lemma CursorLeads(full: seq<Entry>, size: nat, j: nat)
    requires IsHistory(full) && size > 0 && 0 < j <= |full|
    ensures LeadsTo(Ask(full, size), full, size, CursorOf, j)
  {
    var c := CursorOf(full[j - 1]);
    AskLists(full, size, c);
    ListBehind(full, size, c, j);
    LeadsBy(Ask(full, size), full, size, CursorOf, j, ListAccountHistory(full, size, Some(c)));
  }

  lemma LeadsBy<T, C>(ask: Option<C> -> Page<T, C>, items: seq<T>, size: nat, cursor: T -> C, j: nat, page: Page<T, C>)
    requires 0 < j <= |items| && ask(Some(cursor(items[j - 1]))) == page
      && page == PageOf(Slice(items, j, j + size), size, cursor)
    ensures LeadsTo(ask, items, size, cursor, j)
  {
  }

  /** From the first page on, following cursors yields the whole history, every entry once and in order, exactly when
      the page size is at most 200 or all entries fit into one fetch. A larger size is cut to 200 on the first page
      only, which then looks like the last one. */
  lemma PagingIsCompleteIff(full: seq<Entry>, size: nat, pages: nat)
    requires IsHistory(full) && size > 0 && pages > |full|
    ensures Crawl(Ask(full, size), None, pages) == full <==> size <= 200 || |full| <= 200
  {
    if size <= 200 {
      forall j: nat | 0 < j <= |full| ensures LeadsTo(Ask(full, size), full, size, CursorOf, j) {
        CursorLeads(full, size, j);
      }
      CrawlYieldsTheRest(Ask(full, size), full, size, CursorOf, None, 0, pages);
    } else {
      FirstPageOnly(full, size, pages);
    }
  }

  lemma FirstPageOnly(full: seq<Entry>, size: nat, pages: nat)
    requires IsHistory(full) && size > 200 && pages > 0
    ensures Crawl(Ask(full, size), None, pages) == Slice(full, 0, 200)
  {
    assert Ask(full, size)(None) == Page(Slice(full, 0, 200), None);
  }

  function Min(m: nat, n: nat): nat {
    if m < n then m else n
  }

  lemma SliceIsMin<T>(s: seq<T>, start: nat, size: nat)
    requires start <= |s|
    ensures Slice(s, start, start + size) == s[start..Min(start + size, |s|)]
  {
  }

  /** What follows a page's items: a full page has a cursor, that of its last item, and no other page has one. */
  ghost predicate LeadsOn<T, C>(page: Page<T, C>, size: nat, cursor: T -> C) {
    && |page.data| <= size
    && (page.next.Some? <==> |page.data| == size)
    && (page.next.Some? && size > 0 ==> page.next.value == cursor(page.data[size - 1]))
  }

  /** Every answer has at most `size` entries, and a cursor exactly when it has that many. The first one has the newest
      entries, 200 at most; any other has those right behind the entry of its cursor, as long as there are any. */
  lemma AnswerOfHistory(full: seq<Entry>, size: nat, next: Option<Cursor>)
    requires IsHistory(full) && size > 0 && (next.Some? ==> Exists(full, next.value))
    ensures LeadsOn(ListAccountHistory(full, size, next), size, CursorOf)
    ensures next.None? ==> ListAccountHistory(full, size, next).data == full[..Min(Min(size, 200), |full|)]
    ensures next.Some? ==>
      exists i :: 0 <= i < |full| && CursorOf(full[i]) == next.value
                  && ListAccountHistory(full, size, next).data == full[i + 1..Min(i + 1 + size, |full|)]
  {
    if next.None? {
      SliceIsMin(full, 0, Min(size, 200));
    } else {
      var i :| 0 <= i < |full| && CursorOf(full[i]) == next.value;
      AnswerBehind(full, size, i);
    }
  }

  lemma AnswerBehind(full: seq<Entry>, size: nat, i: nat)
    requires IsHistory(full) && size > 0 && i < |full| && Exists(full, CursorOf(full[i]))
    ensures var page := ListAccountHistory(full, size, Some(CursorOf(full[i])));
      LeadsOn(page, size, CursorOf) && page.data == full[i + 1..Min(i + 1 + size, |full|)]
  {
    ListBehind(full, size, CursorOf(full[i]), i + 1);
    SliceIsMin(full, i + 1, size);
  }

  // Paging over a list at hand.

  function FindId<T>(items: seq<T>, id: T -> string, next: string): Option<nat> {
    if items == [] then None
    else if id(items[0]) == next then Some(0)
    else
      var i := FindId(items[1..], id, next);
      if i.None? then None else Some(i.value + 1)
  }

  predicate Differ<T>(items: seq<T>, id: T -> string, j: int, k: int)
    requires 0 <= j < k < |items|
  {
    id(items[j]) != id(items[k])
  }

  ghost predicate UniqueIds<T>(items: seq<T>, id: T -> string) {
    forall j, k :: 0 <= j < k < |items| ==> Differ(items, id, j, k)
  }

  lemma {:induction false} FindIdAt<T>(items: seq<T>, id: T -> string, i: nat)
    requires i < |items| && UniqueIds(items, id)
    ensures FindId(items, id, id(items[i])) == Some(i)
    decreases |items|
  {
    if i > 0 {
      assert items[i] == items[1..][i - 1] && Differ(items, id, 0, i);
      forall j, k | 0 <= j < k < |items[1..]| ensures Differ(items[1..], id, j, k) {
        assert Differ(items, id, j + 1, k + 1);
      }
      FindIdAt(items[1..], id, i - 1);
    }
  }

  lemma {:induction false} FoundIdIsThere<T>(items: seq<T>, id: T -> string, next: string)
    ensures FindId(items, id, next).Some? ==> exists i :: 0 <= i < |items| && id(items[i]) == next
    decreases |items|
  {
    if items != [] && id(items[0]) != next {
      FoundIdIsThere(items[1..], id, next);
      if i :| 0 <= i < |items[1..]| && id(items[1..][i]) == next {
        assert items[i + 1] == items[1..][i];
      }
    }
  }

  /** An index of zero is taken for a cursor that was not found. */
  function FakePage<T>(items: seq<T>, id: T -> string, size: nat, next: Option<string>): Page<T, string> {
    var index :=
      if next.None? then 0
      else
        var found := FindId(items, id, next.value);
        if found.Some? && found.value > 0 then found.value + 1 else |items|;
    PageOf(Slice(items, index, index + size), size, id)
  }

  /** The list as a client asks for it. */
  function FakeAsk<T>(items: seq<T>, id: T -> string, size: nat): Option<string> -> Page<T, string> {
    (next: Option<string>) => FakePage(items, id, size, next)
  }

  /** The cursor of any item but the first leads to what is behind it; that of the first leads nowhere. */
  lemma FakeCursorLeads<T>(items: seq<T>, id: T -> string, size: nat, j: nat)
    requires UniqueIds(items, id) && size > 0 && 0 < j <= |items|
    ensures j > 1 ==> LeadsTo(FakeAsk(items, id, size), items, size, id, j)
    ensures j == 1 ==> FakeAsk(items, id, size)(Some(id(items[0]))) == Page([], None)
  {
    FindIdAt(items, id, j - 1);
  }

  lemma FakeFirstPage<T>(items: seq<T>, id: T -> string, size: nat)
    requires size > 0
    ensures Leads(FakeAsk(items, id, size), items, size, id, None, 0)
  {
  }

  /** With more than one item to a page every cursor but the unused first one leads on. */
  lemma LongPagesAreComplete<T>(items: seq<T>, id: T -> string, size: nat, pages: nat)
    requires UniqueIds(items, id) && size > 1 && pages > |items|
    ensures Crawl(FakeAsk(items, id, size), None, pages) == items
  {
    FakeFirstPage(items, id, size);
    PageFrom(items, 0, size, size, id);
    if size <= |items| {
      FakeRest(items, id, size, pages - 1);
    }
  }

  /** From the cursor of the first page on. */
  lemma FakeRest<T>(items: seq<T>, id: T -> string, size: nat, pages: nat)
    requires UniqueIds(items, id) && 1 < size <= |items| <= pages
    ensures Crawl(FakeAsk(items, id, size), Some(id(items[size - 1])), pages) == items[size..]
  {
    var ask := FakeAsk(items, id, size);
    forall j: nat | size <= j <= |items| ensures LeadsTo(ask, items, size, id, j) {
      FakeCursorLeads(items, id, size, j);
    }
    assert LeadsTo(ask, items, size, id, size);
    CrawlYieldsTheRest(ask, items, size, id, Some(id(items[size - 1])), size, pages);
  }

  lemma PagesOfOneStop<T>(items: seq<T>, id: T -> string, pages: nat)
    requires UniqueIds(items, id) && pages > |items|
    ensures Crawl(FakeAsk(items, id, 1), None, pages) == items <==> |items| <= 1
  {
    var ask := FakeAsk(items, id, 1);
    FakeFirstPage(items, id, 1);
    PageFrom(items, 0, 1, 1, id);
    if items != [] {
      FakeCursorLeads(items, id, 1, 1);
      assert Crawl(ask, Some(id(items[0])), pages - 1) == [];
    }
  }

  /** Following cursors yields every item once, in order, exactly when the page size is not 1 or there are fewer than
      two items: a page of one item has its cursor at index zero. */
  lemma FakePagingIsCompleteIff<T>(items: seq<T>, id: T -> string, size: nat, pages: nat)
    requires UniqueIds(items, id) && size > 0 && pages > |items|
    ensures Crawl(FakeAsk(items, id, size), None, pages) == items <==> size >= 2 || |items| <= 1
  {
    if size > 1 {
      LongPagesAreComplete(items, id, size, pages);
    } else {
      PagesOfOneStop(items, id, pages);
    }
  }

  /** Every answer has at most `size` items, and a cursor exactly when it has that many. The first one has the first
      items; any other has those right behind the item of its cursor, but none behind the first item's. */
  lemma AnswerOfList<T>(items: seq<T>, id: T -> string, size: nat, next: Option<string>)
    requires UniqueIds(items, id) && size > 0
    ensures LeadsOn(FakePage(items, id, size, next), size, id)
    ensures next.None? ==> FakePage(items, id, size, next).data == items[..Min(size, |items|)]
    ensures next.Some? ==>
      forall i :: 0 <= i < |items| && id(items[i]) == next.value ==>
        FakePage(items, id, size, next).data == if i == 0 then [] else items[i + 1..Min(i + 1 + size, |items|)]
    ensures next.Some? && (forall i :: 0 <= i < |items| ==> id(items[i]) != next.value) ==>
      FakePage(items, id, size, next).data == []
  {
    if next.None? {
      SliceIsMin(items, 0, size);
    } else {
      forall i | 0 <= i < |items| && id(items[i]) == next.value
        ensures FakePage(items, id, size, next).data
             == if i == 0 then [] else items[i + 1..Min(i + 1 + size, |items|)]
      {
        FindIdAt(items, id, i);
        SliceIsMin(items, i + 1, size);
      }
      FoundIdIsThere(items, id, next.value);
    }
  }
}

/**
 * The cursor pagination of the task service's ListTasks call, over any
 * insertion-ordered sequence: page-size normalisation, decoding of the
 * decimal offset token, the returned sub-range and the next token.
 */
module Pagination {
  import opened Options
  import opened Codes
  import opened Text

  /** The range of protobuf's `int32`, the wire type of `page_size`. */
  type Int32 = x: int | -0x8000_0000 <= x <= 0x7fff_ffff

  const DefaultPageSize: int := 10
  const MaxPageSize: int := 100

  /** One page of a listing and the token that continues it ("" after the last page). */
  datatype Page<T> = Page(tasks: seq<T>, nextPageToken: string)

  /** A non-positive size asks for the default, a size above the cap is clamped to it. */
  function EffectivePageSize(pageSize: Int32): (n: int)
    ensures 1 <= n <= MaxPageSize
    ensures 1 <= pageSize <= MaxPageSize ==> n == pageSize
    ensures pageSize <= 0 ==> n == DefaultPageSize
    ensures pageSize > MaxPageSize ==> n == MaxPageSize
  {
    if pageSize <= 0 then DefaultPageSize
    else if pageSize > MaxPageSize then MaxPageSize
    else pageSize
  }

  function Min(a: int, b: int): int {
    if a <= b then a else b
  }

  /**
   * The page that starts at `offset`: the next `size` items, fewer at the
   * end; its token is "" exactly when the page reaches the end, and
   * otherwise the decimal spelling of the offset just after the page.
   */
  function PageAt<T>(items: seq<T>, offset: nat, size: int): (p: Page<T>)
    requires offset <= |items| && size >= 1
    ensures |p.tasks| == Min(size, |items| - offset)
    ensures p.tasks == items[offset..offset + |p.tasks|]
    ensures p.nextPageToken == "" <==> offset + |p.tasks| == |items|
    ensures p.nextPageToken != "" ==> p.nextPageToken == Itoa(offset + |p.tasks|)
  {
    var end := Min(offset + size, |items|);
    Page(items[offset..end], if end >= |items| then "" else Itoa(end))
  }

  /** The number a token stands for, if any: "" is 0, any other token its decimal value. */
  function TokenValue(pageToken: string): Option<int> {
    if pageToken == "" then Some(0) else Atoi(pageToken)
  }

  /** The token rule: a token must stand for an offset that is not negative; every other token is rejected. */
  predicate ValidToken(pageToken: string) {
    TokenValue(pageToken).Some? && TokenValue(pageToken).value >= 0
  }

  /** The offset a valid token stands for. */
  function TokenOffset(pageToken: string): nat
    requires ValidToken(pageToken)
  {
    TokenValue(pageToken).value
  }

  /**
   * ListTasks over `items`. The offset check that answers an empty page
   * applies only to a non-empty token, as in the service; for the empty
   * token the ordinary page at offset 0 is answered.
   */
  function Paginate<T>(items: seq<T>, pageSize: Int32, pageToken: string): (r: Result<Page<T>>)
    ensures r.Err? ==> r.code == InvalidArgument
    ensures r.Ok? ==> |r.value.tasks| <= EffectivePageSize(pageSize)
  {
    var size := EffectivePageSize(pageSize);
    if pageToken == "" then
      Ok(PageAt(items, 0, size))
    else
      match Atoi(pageToken)
      case None => Err(InvalidArgument)
      case Some(offset) =>
        if offset < 0 then Err(InvalidArgument)
        else if offset >= |items| then Ok(Page([], ""))
        else Ok(PageAt(items, offset, size))
  }

  /**
   * What a ListTasks answer means: an invalid token is InvalidArgument; an
   * offset at or past the end is the empty last page; otherwise the page is
   * the next `EffectivePageSize` items from the offset (fewer at the end), in
   * order, and its token is "" exactly when the page reaches the end and
   * otherwise decodes to the offset just after the page.
   */
  lemma PaginateSpec<T>(items: seq<T>, pageSize: Int32, pageToken: string)
    ensures var r := Paginate(items, pageSize, pageToken);
      && (r.Err? <==> !ValidToken(pageToken))
      && (r.Err? ==> r.code == InvalidArgument)
      && (r.Ok? && TokenOffset(pageToken) >= |items| ==> r.value == Page([], ""))
      && (r.Ok? && TokenOffset(pageToken) < |items| ==>
            var offset, page := TokenOffset(pageToken), r.value.tasks;
            && |page| == Min(EffectivePageSize(pageSize), |items| - offset)
            && page == items[offset..offset + |page|]
            && (r.value.nextPageToken == "" <==> offset + |page| == |items|)
            && (r.value.nextPageToken != "" ==> r.value.nextPageToken == Itoa(offset + |page|))
            && (r.value.nextPageToken != "" && |items| <= MaxInt ==>
                  Atoi(r.value.nextPageToken) == Some(offset + |page|)))
  {
    var size := EffectivePageSize(pageSize);
    PaginateCases(items, pageSize, pageToken);
    if ValidToken(pageToken) && TokenOffset(pageToken) < |items| {
      EndToken(items, TokenOffset(pageToken), size);
    }
  }

  /** Paginate by cases on the token's value. */
  lemma PaginateCases<T>(items: seq<T>, pageSize: Int32, pageToken: string)
    ensures Paginate(items, pageSize, pageToken) ==
      if !ValidToken(pageToken) then Err(InvalidArgument)
      else if TokenOffset(pageToken) >= |items| then Ok(Page([], ""))
      else Ok(PageAt(items, TokenOffset(pageToken), EffectivePageSize(pageSize)))
  {
    if pageToken == "" && |items| == 0 {
      assert PageAt(items, 0, EffectivePageSize(pageSize)) == Page([], "");
    }
  }

  /** The token PageAt issues is "" exactly at the end, and otherwise decodes to the end offset. */
  lemma EndToken<T>(items: seq<T>, offset: nat, size: int)
    requires offset <= |items| && size >= 1
    ensures var p := PageAt(items, offset, size);
      && |p.tasks| == Min(size, |items| - offset)
      && (p.nextPageToken == "" <==> offset + |p.tasks| == |items|)
      && (p.nextPageToken != "" ==> p.nextPageToken == Itoa(offset + |p.tasks|))
      && (p.nextPageToken != "" && |items| <= MaxInt ==> Atoi(p.nextPageToken) == Some(offset + |p.tasks|))
  {
    var end := Min(offset + size, |items|);
    var p := PageAt(items, offset, size);
    assert |p.tasks| == end - offset;
    if end < |items| {
      assert p.nextPageToken == Itoa(end) != "";
      if |items| <= MaxInt { AtoiItoa(end); }
    }
  }

  /** A token that names an offset at or past the end gives an empty last page, not an error. */
  lemma PastTheEnd<T>(items: seq<T>, pageSize: Int32, offset: nat)
    requires offset >= |items| && offset <= MaxInt
    ensures Paginate(items, pageSize, Itoa(offset)) == Ok(Page([], ""))
  {
    AtoiItoa(offset);
  }

  /** Only the offset a non-empty token decodes to matters, not how it is spelled. */
  lemma SameOffsetSamePage<T>(items: seq<T>, pageSize: Int32, token1: string, token2: string)
    requires token1 != "" && token2 != "" && Atoi(token1) == Atoi(token2)
    ensures Paginate(items, pageSize, token1) == Paginate(items, pageSize, token2)
  {
  }

  /** A sign in front of the offset is accepted: "+3" and "-0" are read as 3 and 0. */
  lemma SignedTokens<T>(items: seq<T>, pageSize: Int32)
    ensures Paginate(items, pageSize, "+3") == Paginate(items, pageSize, "3")
    ensures Paginate(items, pageSize, "-0") == Paginate(items, pageSize, "0")
  {
    AtoiExamples();
    AtoiItoa(3);
    AtoiItoa(0);
    assert Itoa(3) == "3" && Itoa(0) == "0";
    SameOffsetSamePage(items, pageSize, "+3", "3");
    SameOffsetSamePage(items, pageSize, "-0", "0");
  }

  /** Non-numeric and negative tokens are rejected with InvalidArgument. */
  lemma RejectedTokens<T>(items: seq<T>, pageSize: Int32)
    ensures Paginate(items, pageSize, "abc") == Err(InvalidArgument)
    ensures Paginate(items, pageSize, "-1") == Err(InvalidArgument)
    ensures Paginate(items, pageSize, Itoa(MaxInt + 1)) == Err(InvalidArgument)
  {
    AtoiExamples();
    AtoiRange();
  }

  /** With no token the empty store still answers one empty last page. */
  lemma EmptyStore<T>(pageSize: Int32)
    ensures Paginate<T>([], pageSize, "") == Ok(Page([], ""))
  {
  }

  // ---------------------------------------------------------------------
  // A client that follows the tokens to the end
  // ---------------------------------------------------------------------

  /**
   * The pages a client collects by calling `list` from `pageToken` and
   * feeding each next token back in until it is ""; `fuel` bounds the number
   * of calls, and `None` means an error or running out of fuel.
   */
  function Walk<T>(list: string -> Result<Page<T>>, pageToken: string, fuel: nat): (r: Option<seq<seq<T>>>)
    ensures r.Some? ==> 1 <= |r.value| <= fuel
    decreases fuel
  {
    if fuel == 0 then None
    else
      match list(pageToken)
      case Err(_) => None
      case Ok(page) =>
        if page.nextPageToken == "" then Some([page.tasks])
        else Prepend(page.tasks, Walk(list, page.nextPageToken, fuel - 1))
  }

  function Prepend<T>(first: seq<T>, rest: Option<seq<seq<T>>>): Option<seq<seq<T>>> {
    match rest
    case None => None
    case Some(pages) => Some([first] + pages)
  }

  /** ListTasks over `items` with a fixed page size, as the call a client makes. */
  function ListCall<T>(items: seq<T>, pageSize: Int32): string -> Result<Page<T>> {
    t => Paginate(items, pageSize, t)
  }

  /**
   * `r` is the page of `items` of at most `size` items from `offset`, and its
   * token is "" exactly at the end and otherwise stands for the end offset.
   */
  ghost predicate PageServed<T>(r: Result<Page<T>>, decode: string -> Option<int>, items: seq<T>, offset: int, size: int) {
    && 0 <= offset <= |items| && size >= 1
    && r.Ok?
    && var end := Min(offset + size, |items|);
      && r.value.tasks == items[offset..end]
      && (r.value.nextPageToken == "" <==> end == |items|)
      && (r.value.nextPageToken != "" ==> decode(r.value.nextPageToken) == Some(end))
  }

  /** `list` answers every token that stands for an offset up to the end with the page there. */
  ghost predicate ServesPages<T>(list: string -> Result<Page<T>>, decode: string -> Option<int>, items: seq<T>, size: int) {
    && size >= 1
    && forall t {:trigger list(t)} :: decode(t).Some? && 0 <= decode(t).value <= |items| ==>
         PageServed(list(t), decode, items, decode(t).value, size)
  }

  /** Reference definition: `s` cut into consecutive pieces of `n`, the last one possibly shorter. */
  function Chunks<T>(s: seq<T>, n: nat): (r: seq<seq<T>>)
    requires n >= 1
    ensures |r| >= 1
    decreases |s|
  {
    if |s| <= n then [s] else [s[..n]] + Chunks(s[n..], n)
  }

  function Flatten<T>(pages: seq<seq<T>>): seq<T> {
    if pages == [] then [] else pages[0] + Flatten(pages[1..])
  }

  /** Concatenating the chunks gives back the sequence: each element once, in order. */
  lemma {:induction false} FlattenChunks<T>(s: seq<T>, n: nat)
    requires n >= 1
    ensures Flatten(Chunks(s, n)) == s
    decreases |s|
  {
    if |s| > n {
      FlattenChunks(s[n..], n);
      var c := Chunks(s, n);
      assert c[1..] == Chunks(s[n..], n);
      assert s[..n] + s[n..] == s;
    } else {
      assert Chunks(s, n)[1..] == [];
    }
  }

  /** Every chunk but the last is full, the last one is not empty unless `s` is. */
  lemma {:induction false} ChunkSizes<T>(s: seq<T>, n: nat)
    requires n >= 1
    ensures var c := Chunks(s, n);
      && (forall i :: 0 <= i < |c| - 1 ==> |c[i]| == n)
      && (s == [] || 1 <= |c[|c| - 1]| <= n)
      && |c| <= |s| + 1
    decreases |s|
  {
    if |s| > n {
      ChunkSizes(s[n..], n);
      var c := Chunks(s, n);
      assert c[1..] == Chunks(s[n..], n);
    }
  }

  /** ListTasks serves the pages of its effective size, with tokens read as TokenValue reads them. */
  lemma ListCallServesPages<T>(items: seq<T>, pageSize: Int32)
    requires |items| <= MaxInt
    ensures ServesPages(ListCall(items, pageSize), TokenValue, items, EffectivePageSize(pageSize))
  {
    var list, size := ListCall(items, pageSize), EffectivePageSize(pageSize);
    forall t | TokenValue(t).Some? && 0 <= TokenValue(t).value <= |items|
      ensures PageServed(list(t), TokenValue, items, TokenValue(t).value, size)
    {
      PaginateSpec(items, pageSize, t);
      var offset := TokenValue(t).value;
      assert ValidToken(t) && TokenOffset(t) == offset;
      if offset < |items| {
        var next := list(t).value.nextPageToken;
        assert next != "" ==> Atoi(next) == Some(offset + |list(t).value.tasks|);
      }
    }
  }

  /** A full page cut off the front of `items[offset..]` leaves the chunks of the rest. */
  lemma ChunksAfterPage<T>(items: seq<T>, offset: nat, size: nat)
    requires size >= 1 && offset + size < |items|
    ensures Chunks(items[offset..], size) == [items[offset..offset + size]] + Chunks(items[offset + size..], size)
  {
    var rest := items[offset..];
    assert rest[..size] == items[offset..offset + size];
    assert rest[size..] == items[offset + size..];
  }

  /** From any token that stands for an offset, the walk collects exactly the chunks of the rest. */
  lemma {:induction false} WalkFrom<T>(list: string -> Result<Page<T>>, decode: string -> Option<int>, items: seq<T>, size: int,
                                       pageToken: string, offset: nat, fuel: nat)
    requires ServesPages(list, decode, items, size)
    requires decode(pageToken) == Some(offset) && offset <= |items|
    requires fuel >= |Chunks(items[offset..], size)|
    ensures Walk(list, pageToken, fuel) == Some(Chunks(items[offset..], size))
    decreases |items| - offset
  {
    var r := list(pageToken);
    assert PageServed(r, decode, items, offset, size);
    var end := Min(offset + size, |items|);
    if end < |items| {
      var next := r.value.nextPageToken;
      ChunksAfterPage(items, offset, size);
      WalkFrom(list, decode, items, size, next, end, fuel - 1);
    } else {
      assert r.value.tasks == items[offset..];
      assert Chunks(items[offset..], size) == [items[offset..]];
    }
  }

  /**
   * Following the tokens from "" visits every item exactly once, in order:
   * the pages are the full-size chunks of the sequence, the last one shorter.
   */
  lemma WalkVisitsEveryItemOnce<T>(items: seq<T>, pageSize: Int32)
    requires |items| <= MaxInt
    ensures var size := EffectivePageSize(pageSize);
      Walk(ListCall(items, pageSize), "", |items| + 1) == Some(Chunks(items, size))
      && Flatten(Chunks(items, size)) == items
  {
    var size := EffectivePageSize(pageSize);
    ListCallServesPages(items, pageSize);
    ChunkSizes(items, size);
    assert items[0..] == items;
    WalkFrom(ListCall(items, pageSize), TokenValue, items, size, "", 0, |items| + 1);
    FlattenChunks(items, size);
  }

  /** The service's pagination example: five items, pages of two, tokens "2", "4" and "". */
  lemma FiveItemsInPagesOfTwo<T>(items: seq<T>)
    requires |items| == 5
    ensures Paginate(items, 2, "") == Ok(Page(items[0..2], "2"))
    ensures Paginate(items, 2, "2") == Ok(Page(items[2..4], "4"))
    ensures Paginate(items, 2, "4") == Ok(Page(items[4..5], ""))
  {
    assert Itoa(2) == "2" && Itoa(4) == "4";
    AtoiItoa(2);
    AtoiItoa(4);
  }
}

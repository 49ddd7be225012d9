/** The parts of the second backend's `WalkController` that decide
    something: the pagination guard of `listWalksByPet` and the handling of
    an absent active walk in `getActiveWalk`. */
module WalkController {
  import opened Common
  import ExceptionHandler
  import WalkService

  const DefaultPage: int := 0
  const DefaultSize: int := 10
  const MaxPageSize: int := 100

  const PageMessage: string := "Page must be >= 0"
  const SizeMessage: string := "Size must be between 1 and 100"

  /** `@RequestParam(defaultValue = ...)`: an absent parameter takes its
      default, a given one is used as is. */
  function WithDefault(raw: Option<int>, default: int): (v: int)
    ensures raw.None? ==> v == default
    ensures raw.Some? ==> v == raw.value
  {
    if raw.Some? then raw.value else default
  }

  /** The page and size `listWalksByPet` hands to `listByPet`, or the
      message of the `PaginationValidationException` it throws instead. */
  function CheckPagination(rawPage: Option<int>, rawSize: Option<int>): (r: Result<(int, int), string>)
    ensures var page := WithDefault(rawPage, DefaultPage);
      var size := WithDefault(rawSize, DefaultSize);
      && (r.Ok? <==> 0 <= page && 1 <= size <= MaxPageSize)
      && (r.Ok? ==> r.value == (page, size))
      && (page < 0 ==> r == Err(PageMessage))
      && (0 <= page && !(1 <= size <= MaxPageSize) ==> r == Err(SizeMessage))
  {
    var page := WithDefault(rawPage, DefaultPage);
    var size := WithDefault(rawSize, DefaultSize);
    if page < 0 then Err(PageMessage)
    else if size < 1 || size > MaxPageSize then Err(SizeMessage)
    else Ok((page, size))
  }

  /** With neither parameter given, the first page of ten is asked for. */
  lemma DefaultsAreFirstPageOfTen()
    ensures CheckPagination(None, None) == Ok((0, 10))
  {
  }

  /** The page guard's message reaches the client as the detail naming the
      page parameter. */
  lemma PageMessageNamesPage()
    ensures ExceptionHandler.Handle(ExceptionHandler.Pagination(PageMessage)).details
         == [ExceptionHandler.Detail("page", "must be >= 0")]
  {
    assert PageMessage[..|ExceptionHandler.PageHint|] == ExceptionHandler.PageHint;
  }

  /** The size guard's message has no capital P, so it is not taken for a
      page error. */
  lemma SizeMessageIsNoPageError()
    ensures !ExceptionHandler.Contains(SizeMessage, ExceptionHandler.PageHint)
  {
    assert 'P' !in SizeMessage;
    ExceptionHandler.NotContainsFirstCharAbsent(SizeMessage, ExceptionHandler.PageHint);
  }

  /** The size guard's message reaches the client as the detail naming the
      size parameter. */
  lemma SizeMessageNamesSize()
    ensures ExceptionHandler.Handle(ExceptionHandler.Pagination(SizeMessage)).details
         == [ExceptionHandler.Detail("size", "must be between 1 and 100")]
  {
    SizeMessageIsNoPageError();
    assert SizeMessage[..|ExceptionHandler.SizeHint|] == ExceptionHandler.SizeHint;
    ExceptionHandler.SizeDetail(SizeMessage);
  }

  /** When both parameters are wrong the client hears about the page. */
  lemma PageCheckedFirst(rawPage: Option<int>, rawSize: Option<int>)
    requires WithDefault(rawPage, DefaultPage) < 0
    ensures CheckPagination(rawPage, rawSize).Err?
    ensures ExceptionHandler.Handle(ExceptionHandler.Pagination(CheckPagination(rawPage, rawSize).error)).details
         == [ExceptionHandler.Detail("page", "must be >= 0")]
  {
    PageMessageNamesPage();
  }

  datatype ActiveWalkAnswer =
    | Found(walk: WalkService.StartWalkResponse)
    | NotFound
    | Raised(error: WalkService.WalkError)

  /** `getActiveWalk`: a `null` from the service is a bare 404; an exception
      passes through to the handler. */
  function GetActiveWalk(result: Result<Option<WalkService.StartWalkResponse>, WalkService.WalkError>): (a: ActiveWalkAnswer)
    ensures a.NotFound? <==> result == Ok(None)
    ensures a.Found? <==> result.Ok? && result.value.Some?
    ensures a.Found? ==> a.walk == result.value.value
    ensures a.Raised? ==> result == Err(a.error)
  {
    match result
    case Err(e) => Raised(e)
    case Ok(None) => NotFound
    case Ok(Some(w)) => Found(w)
  }
}

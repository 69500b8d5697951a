/** The shortening service over its table of `UrlData` rows: the two lookups,
    the retry loop that looks for an unused short path, and the
    lookup-or-insert protocol of `ShortenUrlAsync`. The database table is a
    sequence of rows in insertion order. */
module Shortener {
  import opened Models
  import opened UrlValidation

  /** Position of the first row, in insertion order, whose original URL is url:
      the row the query in `ReturnAlreadyShortenedUrl` is taken to return. */
  function FirstWithUrl(table: seq<UrlData>, url: string): (r: Option<nat>)
    ensures r.Some? ==> r.value < |table| && table[r.value].url == url
    ensures r.Some? ==> forall j | 0 <= j < r.value :: table[j].url != url
    ensures r.None? ==> forall j | 0 <= j < |table| :: table[j].url != url
  {
    if |table| == 0 then None
    else if table[0].url == url then Some(0)
    else match FirstWithUrl(table[1..], url)
      case None => None
      case Some(k) => Some(k + 1)
  }

  /** Position of the first row, in insertion order, whose short path is path:
      the row the queries in the retry loop and in `GetRedirectionUrl` are taken to return. */
  function FirstWithPath(table: seq<UrlData>, path: string): (r: Option<nat>)
    ensures r.Some? ==> r.value < |table| && table[r.value].shortUrlPath == path
    ensures r.Some? ==> forall j | 0 <= j < r.value :: table[j].shortUrlPath != path
    ensures r.None? ==> forall j | 0 <= j < |table| :: table[j].shortUrlPath != path
  {
    if |table| == 0 then None
    else if table[0].shortUrlPath == path then Some(0)
    else match FirstWithPath(table[1..], path)
      case None => None
      case Some(k) => Some(k + 1)
  }

  /** Some row already uses path as its short path. */
  predicate PathInUse(table: seq<UrlData>, path: string) {
    FirstWithPath(table, path).Some?
  }

  /** No two rows share a short path. */
  ghost predicate PathsDistinct(table: seq<UrlData>) {
    forall i, j | 0 <= i < j < |table| :: table[i].shortUrlPath != table[j].shortUrlPath
  }

  /** No two rows share an original URL. */
  ghost predicate UrlsDistinct(table: seq<UrlData>) {
    forall i, j | 0 <= i < j < |table| :: table[i].url != table[j].url
  }

  /** `ReturnAlreadyShortenedUrl`: the first row for url, or null. */
  function ReturnAlreadyShortenedUrl(table: seq<UrlData>, url: string): (r: Option<UrlData>)
    ensures r.None? <==> forall d | d in table :: d.url != url
    ensures r.Some? ==> r.value in table && r.value.url == url
    ensures r.Some? ==> exists i | 0 <= i < |table| :: table[i] == r.value && forall j | 0 <= j < i :: table[j].url != url
  {
    match FirstWithUrl(table, url)
    case None => None
    case Some(i) => Some(table[i])
  }

  /** `GetRedirectionUrl`: the original URL of the first row whose short path is
      shortUrl, or the "Url Not Found" exception. */
  function GetRedirectionUrl(table: seq<UrlData>, shortUrl: string): (r: Result<string>)
    ensures r.Err? <==> forall d | d in table :: d.shortUrlPath != shortUrl
    ensures r.Err? ==> r.failure == ArgumentException(UrlNotFoundMessage)
    ensures r.Ok? ==> exists i | 0 <= i < |table| ::
              table[i].shortUrlPath == shortUrl && table[i].url == r.value
              && forall j | 0 <= j < i :: table[j].shortUrlPath != shortUrl
    ensures PathsDistinct(table) ==> forall d | d in table && d.shortUrlPath == shortUrl :: r == Ok(d.url)
  {
    match FirstWithPath(table, shortUrl)
    case None => Err(ArgumentException(UrlNotFoundMessage))
    case Some(i) => Ok(table[i].url)
  }

  /** The path the retry loop settles on when the generator's successive
      outputs are candidates: the first one no row uses, if there is one. */
  function FirstUnusedPath(table: seq<UrlData>, candidates: seq<string>): (r: Option<string>)
    ensures r.Some? ==> !PathInUse(table, r.value)
    ensures r.Some? ==> exists k | 0 <= k < |candidates| ::
              candidates[k] == r.value && forall j | 0 <= j < k :: PathInUse(table, candidates[j])
    ensures r.None? <==> forall j | 0 <= j < |candidates| :: PathInUse(table, candidates[j])
  {
    if |candidates| == 0 then None
    else if !PathInUse(table, candidates[0]) then Some(candidates[0])
    else
      var r := FirstUnusedPath(table, candidates[1..]);
      if r.Some? then
        var k :| 0 <= k < |candidates| - 1 && candidates[1..][k] == r.value
                 && forall j | 0 <= j < k :: PathInUse(table, candidates[1..][j]);
        assert candidates[k + 1] == r.value;
        r
      else
        r
  }

  /** One call of `ShortenUrlAsync`: what it returns and the table after it. */
  datatype Shortening = Shortening(result: Result<UrlData>, table: seq<UrlData>)

  /** `ShortenUrlAsync(url, requestPath)` on a table, where url is null when None,
      candidates are the paths the generator produces in turn and newId is the
      identifier the store gives a new row. */
  function Shorten(table: seq<UrlData>, url: Option<string>, requestPath: string,
                   candidates: seq<string>, newId: Id): (s: Shortening)
    ensures s.result.Err? ==> s.table == table
    ensures s.result.Ok? ==> url.Some? && s.result.value.url == Normalize(url.value) && s.result.value in s.table
    ensures s.table == table || (s.result.Ok? && s.table == table + [s.result.value])
  {
    if url.None? || url.value == "" then
      Shortening(Err(ArgumentException(EmptyUrlMessage)), table)
    else
      var u := Normalize(url.value);
      if !IsUrlValid(u) then
        Shortening(Err(ArgumentException(InvalidUrlMessage)), table)
      else
        match ReturnAlreadyShortenedUrl(table, u)
        case Some(d) => Shortening(Ok(d), table)
        case None =>
          match FirstUnusedPath(table, candidates)
          case None => Shortening(Err(CandidatesExhausted), table)
          case Some(p) =>
            var d := UrlData(newId, u, requestPath + p, p);
            Shortening(Ok(d), table + [d])
  }

  /** The service object: it owns the store's table and changes it only by
      appending the row for a newly shortened URL. */
  class ShortenerService {
    var urlData: seq<UrlData>

    constructor (initial: seq<UrlData>)
      ensures urlData == initial
    {
      urlData := initial;
    }

    /** `GenerateUniqueShortUrlPathAsync`: draw candidates until one is unused.
        The source draws forever; here the draws are the given sequence, and
        None means every one of them was already in use. */
    method GenerateUniqueShortUrlPath(candidates: seq<string>) returns (r: Option<string>)
      ensures r == FirstUnusedPath(urlData, candidates)
      ensures r.Some? ==> r.value in candidates && !PathInUse(urlData, r.value)
    {
      var shortUrlPathExists := true;
      var tempUrlPath := "";
      var drawn := 0;
      while shortUrlPathExists
        invariant 0 <= drawn <= |candidates|
        invariant forall j | 0 <= j < drawn - 1 :: PathInUse(urlData, candidates[j])
        invariant shortUrlPathExists ==> forall j | 0 <= j < drawn :: PathInUse(urlData, candidates[j])
        invariant !shortUrlPathExists ==>
                    0 < drawn && tempUrlPath == candidates[drawn - 1] && !PathInUse(urlData, tempUrlPath)
        decreases |candidates| - drawn, shortUrlPathExists
      {
        if drawn == |candidates| {
          return None;
        }
        tempUrlPath := candidates[drawn];
        drawn := drawn + 1;
        var shortUrlNotUsed := FirstWithPath(urlData, tempUrlPath).None?;
        if shortUrlNotUsed {
          shortUrlPathExists := false;
        }
      }
      FirstUnusedIsFirst(urlData, candidates, drawn - 1);
      r := Some(tempUrlPath);
    }

    /** `ShortenUrlAsync`: reject a null or empty URL, add `http://` when the URL
        does not begin with `http`, reject what fails the pattern, return the
        row already holding the URL, and otherwise append a row with a fresh
        short path. */
    method ShortenUrl(url: Option<string>, requestPath: string, candidates: seq<string>, newId: Id)
      returns (r: Result<UrlData>)
      modifies this
      ensures Shortening(r, urlData) == Shorten(old(urlData), url, requestPath, candidates, newId)
      ensures r.Err? ==> urlData == old(urlData)
      ensures old(PathsDistinct(urlData)) ==> PathsDistinct(urlData)
    {
      if url.None? || url.value == "" {
        return Err(ArgumentException(EmptyUrlMessage));
      }
      var u := url.value;
      if !StartsWithHttp(u) {
        u := "http://" + u;
      }
      if !IsUrlValid(u) {
        return Err(ArgumentException(InvalidUrlMessage));
      }
      var existing := ReturnAlreadyShortenedUrl(urlData, u);
      if existing.Some? {
        return Ok(existing.value);
      }
      var shortUrlPath := GenerateUniqueShortUrlPath(candidates);
      if shortUrlPath.None? {
        return Err(CandidatesExhausted);
      }
      var record := UrlData(newId, u, requestPath + shortUrlPath.value, shortUrlPath.value);
      AppendUnusedPathKeepsPathsDistinct(urlData, record);
      urlData := urlData + [record];
      r := Ok(record);
    }
  }

  /** If candidates[k] is unused and every earlier candidate is in use, the
      retry loop's answer is candidates[k]. */
  lemma {:induction false} FirstUnusedIsFirst(table: seq<UrlData>, candidates: seq<string>, k: nat)
    requires k < |candidates| && !PathInUse(table, candidates[k])
    requires forall j | 0 <= j < k :: PathInUse(table, candidates[j])
    ensures FirstUnusedPath(table, candidates) == Some(candidates[k])
  {
    if k > 0 {
      FirstUnusedIsFirst(table, candidates[1..], k - 1);
    }
  }

  /** Appending a row whose short path no row uses keeps the short paths distinct. */
  lemma AppendUnusedPathKeepsPathsDistinct(table: seq<UrlData>, d: UrlData)
    requires !PathInUse(table, d.shortUrlPath)
    ensures PathsDistinct(table) ==> PathsDistinct(table + [d])
  {
  }
}

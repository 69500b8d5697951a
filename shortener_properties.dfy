/** What the shortening protocol guarantees across calls, and the scenarios of
    the service's unit tests restated on the model. */
module ShortenerProperties {
  import opened Models
  import opened UrlValidation
  import opened PathGenerator
  import opened Shortener

  /** Appending a row leaves the first row for a URL where it was, or makes the
      new row the first one when no earlier row holds that URL. */
  lemma {:induction false} FirstWithUrlAppend(table: seq<UrlData>, d: UrlData, url: string)
    ensures FirstWithUrl(table + [d], url) ==
              if FirstWithUrl(table, url).Some? then FirstWithUrl(table, url)
              else if d.url == url then Some(|table|) else None
  {
    if |table| > 0 {
      assert (table + [d])[1..] == table[1..] + [d];
      FirstWithUrlAppend(table[1..], d, url);
    }
  }

  /** The same for the first row holding a short path. */
  lemma {:induction false} FirstWithPathAppend(table: seq<UrlData>, d: UrlData, path: string)
    ensures FirstWithPath(table + [d], path) ==
              if FirstWithPath(table, path).Some? then FirstWithPath(table, path)
              else if d.shortUrlPath == path then Some(|table|) else None
  {
    if |table| > 0 {
      assert (table + [d])[1..] == table[1..] + [d];
      FirstWithPathAppend(table[1..], d, path);
    }
  }

  /** The first row holding url is found where it is. */
  lemma {:induction false} FirstWithUrlIs(table: seq<UrlData>, url: string, i: nat)
    requires i < |table| && table[i].url == url
    requires forall j | 0 <= j < i :: table[j].url != url
    ensures FirstWithUrl(table, url) == Some(i)
  {
    if i > 0 {
      FirstWithUrlIs(table[1..], url, i - 1);
    }
  }

  /** Each failure of `ShortenUrlAsync`, with its exact message, and when it happens. */
  lemma ShortenFailures(table: seq<UrlData>, url: Option<string>, requestPath: string,
                        candidates: seq<string>, newId: Id)
    ensures var s := Shorten(table, url, requestPath, candidates, newId);
      && (s.result == Err(ArgumentException(EmptyUrlMessage)) <==> url.None? || url.value == "")
      && (s.result == Err(ArgumentException(InvalidUrlMessage)) <==>
            url.Some? && url.value != "" && !IsUrlValid(Normalize(url.value)))
      && (s.result == Err(CandidatesExhausted) <==>
            && url.Some? && url.value != "" && IsUrlValid(Normalize(url.value))
            && (forall d | d in table :: d.url != Normalize(url.value))
            && (forall j | 0 <= j < |candidates| :: PathInUse(table, candidates[j])))
      && (s.result.Err? ==> s.table == table)
  {
  }

  /** A URL that is already in the table gets its first row back, unchanged and
      whatever the request path, and the table stays as it was. */
  lemma ShortenReturnsExistingRow(table: seq<UrlData>, url: string, requestPath: string,
                                  candidates: seq<string>, newId: Id, i: nat)
    requires url != "" && IsUrlValid(Normalize(url))
    requires i < |table| && table[i].url == Normalize(url)
    requires forall j | 0 <= j < i :: table[j].url != Normalize(url)
    ensures Shorten(table, Some(url), requestPath, candidates, newId) == Shortening(Ok(table[i]), table)
  {
    FirstWithUrlIs(table, Normalize(url), i);
  }

  /** A valid URL that is not yet in the table gets exactly one new row: the
      normalised URL, the first unused candidate p, and requestPath + p. */
  lemma ShortenAppendsNewRow(table: seq<UrlData>, url: string, requestPath: string,
                             candidates: seq<string>, newId: Id, p: string)
    requires url != "" && IsUrlValid(Normalize(url))
    requires forall d | d in table :: d.url != Normalize(url)
    requires FirstUnusedPath(table, candidates) == Some(p)
    ensures var d := UrlData(newId, Normalize(url), requestPath + p, p);
      && Shorten(table, Some(url), requestPath, candidates, newId) == Shortening(Ok(d), table + [d])
      && |d.shortenedUrl| == |requestPath| + |p|
      && (table + [d])[..|table|] == table
  {
  }

  /** Short paths stay pairwise distinct. */
  lemma ShortenKeepsPathsDistinct(table: seq<UrlData>, url: Option<string>, requestPath: string,
                                  candidates: seq<string>, newId: Id)
    requires PathsDistinct(table)
    ensures PathsDistinct(Shorten(table, url, requestPath, candidates, newId).table)
  {
    var s := Shorten(table, url, requestPath, candidates, newId);
    if s.table != table {
      AppendUnusedPathKeepsPathsDistinct(table, s.result.value);
    }
  }

  /** Original URLs stay pairwise distinct: a row is only added for a URL no row holds. */
  lemma ShortenKeepsUrlsDistinct(table: seq<UrlData>, url: Option<string>, requestPath: string,
                                 candidates: seq<string>, newId: Id)
    requires UrlsDistinct(table)
    ensures UrlsDistinct(Shorten(table, url, requestPath, candidates, newId).table)
  {
  }

  /** Resolving the short path of a shortened URL gives back the normalised URL,
      whether the row was just added or was already there. */
  lemma ResolveAfterShorten(table: seq<UrlData>, url: Option<string>, requestPath: string,
                            candidates: seq<string>, newId: Id)
    requires PathsDistinct(table)
    requires Shorten(table, url, requestPath, candidates, newId).result.Ok?
    ensures var s := Shorten(table, url, requestPath, candidates, newId);
      GetRedirectionUrl(s.table, s.result.value.shortUrlPath) == Ok(Normalize(url.value))
  {
    var s := Shorten(table, url, requestPath, candidates, newId);
    ShortenKeepsPathsDistinct(table, url, requestPath, candidates, newId);
    assert s.result.value in s.table;
  }

  /** A row that a call appends can be resolved at once, with no assumption on
      the rest of the table: its short path was unused, so the new row is the
      first row holding it. */
  lemma ResolveNewRow(table: seq<UrlData>, url: Option<string>, requestPath: string,
                      candidates: seq<string>, newId: Id)
    requires Shorten(table, url, requestPath, candidates, newId).table != table
    ensures var s := Shorten(table, url, requestPath, candidates, newId);
      GetRedirectionUrl(s.table, s.result.value.shortUrlPath) == Ok(Normalize(url.value))
  {
    var s := Shorten(table, url, requestPath, candidates, newId);
    var d := s.result.value;
    assert FirstUnusedPath(table, candidates) == Some(d.shortUrlPath);
    FirstWithPathAppend(table, d, d.shortUrlPath);
  }

  /** Shortening the same URL again returns the same row and leaves the table
      alone, whatever request path and generator output the second call sees. */
  lemma ShortenIdempotent(table: seq<UrlData>, url: Option<string>, requestPath: string,
                          candidates: seq<string>, newId: Id,
                          requestPath': string, candidates': seq<string>, newId': Id)
    requires Shorten(table, url, requestPath, candidates, newId).result.Ok?
    ensures var s := Shorten(table, url, requestPath, candidates, newId);
      Shorten(s.table, url, requestPath', candidates', newId') == s
  {
    var s := Shorten(table, url, requestPath, candidates, newId);
    if s.table != table {
      FirstWithUrlAppend(table, s.result.value, Normalize(url.value));
    }
  }

  /** When the paths come from the corrected generator, a newly minted short
      path is 2 to 5 letters and digits cut from the alphabet. */
  lemma MintedPathHasGeneratorShape(table: seq<UrlData>, url: Option<string>, requestPath: string,
                                    candidates: seq<string>, newId: Id)
    requires forall k | 0 <= k < |candidates| :: IsCorrectedGeneratorOutput(candidates[k])
    requires Shorten(table, url, requestPath, candidates, newId).table != table
    ensures var s := Shorten(table, url, requestPath, candidates, newId);
      IsGeneratedShape(s.result.value.shortUrlPath)
  {
    var s := Shorten(table, url, requestPath, candidates, newId);
    var p := s.result.value.shortUrlPath;
    assert FirstUnusedPath(table, candidates) == Some(p);
    var k :| 0 <= k < |candidates| && candidates[k] == p
             && forall j | 0 <= j < k :: PathInUse(table, candidates[j]);
    assert IsCorrectedGeneratorOutput(candidates[k]);
  }

  // The unit tests' fixtures.

  function GoogleRow(shortenedUrl: string): UrlData {
    UrlData(1, "http://www.google.com", shortenedUrl, "YyZz0")
  }

  const MockCandidates: seq<string> := ["YyZz0", "11", "baz"]

  /** A URL that begins with `http` is kept as is; "www.bing.com" gets `http://`;
      the minted path and the shortened URL stay within the tests' length bounds. */
  lemma PrefixScenarios(newId: Id)
    ensures Shorten([], Some("http://www.bing.com"), "http://localhost:80/", MockCandidates, newId).result
            == Ok(UrlData(newId, "http://www.bing.com", "http://localhost:80/YyZz0", "YyZz0"))
    ensures Shorten([], Some("www.bing.com"), "http://localhost:80/", MockCandidates, newId).result
            == Ok(UrlData(newId, "http://www.bing.com", "http://localhost:80/YyZz0", "YyZz0"))
    ensures var r := Shorten([], Some("http://www.bing.com"), "http://localhost:80/", MockCandidates, newId).result;
      r.Ok? && |r.value.shortUrlPath| <= 25 && |r.value.shortenedUrl| >= 21
  {
    assert "http://localhost:80/" + "YyZz0" == "http://localhost:80/YyZz0";
    var bing := "http://www.bing.com";
    assert Normalize(bing) == bing;
    assert "www.bing.com"[0] != 'h';
    assert Normalize("www.bing.com") == "http://" + "www.bing.com" == bing;
    BingIsValid();
    FirstUnusedIsFirst([], MockCandidates, 0);
    ShortenAppendsNewRow([], bing, "http://localhost:80/", MockCandidates, newId, "YyZz0");
    ShortenAppendsNewRow([], "www.bing.com", "http://localhost:80/", MockCandidates, newId, "YyZz0");
  }

  /** The stored path "YyZz0" collides with the first draw, so the second draw
      "11" is used; the new row is appended and its shortened URL is 22 characters long. */
  lemma CollisionScenario(table: seq<UrlData>, newId: Id)
    requires table == [GoogleRow("http://localhost/YyZz0")]
    ensures var row := UrlData(newId, "http://www.bing.com", "http://localhost:80/11", "11");
      && Shorten(table, Some("http://www.bing.com"), "http://localhost:80/", MockCandidates, newId)
           == Shortening(Ok(row), table + [row])
      && |row.shortenedUrl| >= 21
  {
    assert "http://localhost:80/" + "11" == "http://localhost:80/11";
    var bing := "http://www.bing.com";
    BingIsNewAndValid(table);
    SecondDrawIsUsed(table);
    ShortenAppendsNewRow(table, bing, "http://localhost:80/", MockCandidates, newId, "11");
  }

  lemma BingIsNewAndValid(table: seq<UrlData>)
    requires table == [GoogleRow("http://localhost/YyZz0")]
    ensures Normalize("http://www.bing.com") == "http://www.bing.com"
    ensures IsUrlValid(Normalize("http://www.bing.com"))
    ensures forall d | d in table :: d.url != Normalize("http://www.bing.com")
  {
    BingIsValid();
  }

  lemma SecondDrawIsUsed(table: seq<UrlData>)
    requires table == [GoogleRow("http://localhost/YyZz0")]
    ensures FirstUnusedPath(table, MockCandidates) == Some("11")
  {
    assert MockCandidates[0] == "YyZz0" && MockCandidates[1] == "11";
    assert FirstWithPath(table, "YyZz0") == Some(0);
    assert FirstWithPath(table, "11") == None by {
      assert table[0].shortUrlPath != "11";
      assert table[1..] == [];
    }
    FirstUnusedIsFirst(table, MockCandidates, 1);
  }

  /** "http://www.google.com" is already stored, so its row comes back as it was. */
  lemma ExistingUrlScenario(newId: Id)
    ensures var table := [GoogleRow("http://localhost:80/YyZz0")];
      Shorten(table, Some("http://www.google.com"), "http://localhost:80/", MockCandidates, newId)
        == Shortening(Ok(table[0]), table)
  {
    var table := [GoogleRow("http://localhost:80/YyZz0")];
    assert Normalize("http://www.google.com") == "http://www.google.com";
    GoogleIsValid();
    ShortenReturnsExistingRow(table, "http://www.google.com", "http://localhost:80/", MockCandidates, newId, 0);
  }

  /** Null, empty and non-matching URLs are refused with the tests' messages. */
  lemma RejectionScenarios(newId: Id)
    ensures Shorten([], None, "http://localhost:80/", MockCandidates, newId).result
            == Err(ArgumentException("Url to shorten cannot be empty"))
    ensures Shorten([], Some(""), "http://localhost:80/", MockCandidates, newId).result
            == Err(ArgumentException("Url to shorten cannot be empty"))
    ensures Shorten([], Some("https://this-shouldn't.match@example.com"), "http://localhost:80/",
                    MockCandidates, newId).result
            == Err(ArgumentException("This is not a valid Url"))
  {
    ApostropheUrlIsInvalid();
  }

  /** A stored path resolves to its URL; an unknown one is "Url Not Found". */
  lemma RedirectionScenarios()
    ensures GetRedirectionUrl([GoogleRow("http://localhost/YyZz0")], "YyZz0") == Ok("http://www.google.com")
    ensures GetRedirectionUrl([], "http://localhost/YyZz0") == Err(ArgumentException("Url Not Found"))
  {
  }
}

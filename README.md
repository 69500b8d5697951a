# UrlShortener core, modelled in Dafny

This project models the core of a small URL-shortening service. `ShortenerService` keeps a
table of `UrlData` rows. Each row has an id, an original URL, a shortened URL and a short path.
The service supports two calls:

- `ShortenUrlAsync(url, requestPath)` refuses a null or empty URL. It puts `http://` in front of
  a URL that does not begin with `http`. It checks the result against one fixed regular
  expression. If a row already holds that URL, it returns that row. Otherwise it draws short
  paths from a generator until one is unused, and appends a new row.
- `GetRedirectionUrl(shortUrl)` returns the original URL for a short path, or fails with
  "Url Not Found".

The generator `ShortUrlPathGenerator` cuts a slice out of a fixed 62-character alphabet. Two
random draws decide where the slice starts and how long it is.

Files and modules:

- `models.dfy` (`Models`): the `UrlData` row, the three exception messages, and `Option`/`Result`.
  These stand for C#'s null results and its exceptions.
- `path_generator.dfy` (`PathGenerator`): the alphabet and the generator. The random draws are
  parameters.
- `url_validation.dfy` (`UrlValidation`): the `http://` prefix rule and the validation pattern.
  The pattern is stated as a predicate: "the pattern matches from the start of some suffix of
  the URL".
- `shortener_service.dfy` (`Shortener`): the table queries, the value-level specification
  `Shorten`, and the class `ShortenerService`. The class holds the table as a `seq<UrlData>`
  field. Its two imperative methods are the retry loop and `ShortenUrl`.
- `shortener_properties.dfy` (`ShortenerProperties`): lemmas that relate several calls, plus
  the unit tests' scenarios restated on the model.

Three facts about the code that the model keeps:

- `string.IsNullOrEmpty` treats only null and "" as empty. A whitespace-only URL gets the
  `http://` prefix and then fails the pattern with "This is not a valid Url".
- The pattern has no `^` and is run with `IsMatch`, so a match anywhere in the string is
  enough. `UrlValidation.ValidityIgnoresPrefix` states this.
- The generator can throw `ArgumentOutOfRangeException` (see Findings).

## Model

| member | source | states |
|---|---|---|
| `PathGenerator.SafeUrlCharsLayout` | UrlShortener/Services/ShortUrlPathGenerator.cs:9 | the alphabet has 62 characters; each one is a letter or digit and sits at the position its code predicts |
| `PathGenerator.SafeUrlCharsDistinct` | UrlShortener/Services/ShortUrlPathGenerator.cs:9 | the 62 characters of the alphabet are pairwise distinct |
| `PathGenerator.SafeUrlCharsCoverLettersAndDigits` | UrlShortener/Services/ShortUrlPathGenerator.cs:9 | a character is in the alphabet exactly when it is an ASCII letter or digit |
| `PathGenerator.GenerateShortUrlPath` | UrlShortener/Services/ShortUrlPathGenerator.cs:10 | for start in [0,62) and length in [2,6): throws ArgumentOutOfRange exactly when start + length > 62; otherwise returns the slice of the alphabet that begins at `start` and has `length` letters and digits, so 2 to 5 characters |
| `PathGenerator.GeneratorThrowsNearAlphabetEnd` | UrlShortener/Services/ShortUrlPathGenerator.cs:10 | the draw (61, 2) throws, and so does every draw whose slice runs past the end |
| `PathGenerator.GenerateShortUrlPathInRange` | UrlShortener/Services/ShortUrlPathGenerator.cs:10 | the corrected generator, with start drawn in [0, 62 − length], never fails and returns the slice of the alphabet that begins at `start`: `length` (2 to 5) letters and digits |
| `PathGenerator.GeneratorAgreesWhereInRange` | UrlShortener/Services/ShortUrlPathGenerator.cs:10 | on every draw where the source's generator does not throw, it returns what the corrected generator returns |
| `UrlValidation.IsUrlValid` | UrlShortener/Services/ShortenerService.cs:21-26 | the pattern, ignoring ASCII case, matches from the start of some suffix of the URL: `http` or `https`, `://`, an optional `www.`, 1 to 256 host characters, `.`, 1 to 6 characters of `[a-zA-Z0-9()]`, then a word boundary; a valid URL has at least 10 characters |
| `UrlValidation.Normalize` | UrlShortener/Services/ShortenerService.cs:35-38 | the result begins with `http`; it equals the input exactly when the input begins with `http`; otherwise it is `http://` + input |
| `UrlValidation.NormalizeIdempotent` | UrlShortener/Services/ShortenerService.cs:35-38 | normalising twice is normalising once: a URL is never prefixed twice |
| `UrlValidation.ValidityIgnoresPrefix` | UrlShortener/Services/ShortenerService.cs:21-26 | the pattern is not anchored: any text in front of a valid URL leaves it valid |
| `UrlValidation.BingIsValid` | UrlShortener/Services/ShortenerService.cs:23 | "http://www.bing.com" matches the pattern |
| `UrlValidation.GoogleIsValid` | UrlShortener/Services/ShortenerService.cs:23 | "http://www.google.com" matches the pattern |
| `UrlValidation.ApostropheUrlIsInvalid` | UrlShortener/Services/ShortenerService.cs:23 | "https://this-shouldn't.match@example.com" matches nowhere: the host after the scheme hits the apostrophe before any dot |
| `Shortener.FirstWithUrl` | UrlShortener/Services/ShortenerService.cs:64-66 | returns the index of the first row holding the URL, or None when no row holds it |
| `Shortener.FirstWithPath` | UrlShortener/Services/ShortenerService.cs:91-92 | returns the index of the first row holding the short path, or None when no row holds it |
| `Shortener.ReturnAlreadyShortenedUrl` | UrlShortener/Services/ShortenerService.cs:62-67 | null exactly when no row holds the URL; otherwise the first row that holds it |
| `Shortener.GetRedirectionUrl` | UrlShortener/Services/ShortenerService.cs:89-98 | fails with "Url Not Found" exactly when no row has the short path; otherwise returns the URL of the first such row; when short paths are distinct, that is the URL of the one row with the path |
| `Shortener.FirstUnusedPath` | UrlShortener/Services/ShortenerService.cs:69-87 | returns the first candidate that no row uses, with every earlier candidate in use; None exactly when every candidate is in use |
| `Shortener.Shorten` | UrlShortener/Services/ShortenerService.cs:28-60 | a failure leaves the table unchanged; a success returns a row in the new table whose URL is the normalised input; the table is either unchanged or the old table plus the returned row |
| `Shortener.ShortenerService.constructor` | UrlShortener/Services/ShortenerService.cs:15-19 | the service starts with the store's table as it is |
| `Shortener.ShortenerService.GenerateUniqueShortUrlPath` | UrlShortener/Services/ShortenerService.cs:69-87 | the retry loop returns `FirstUnusedPath` of the table and candidates; a returned path is one of the candidates and is unused |
| `Shortener.ShortenerService.ShortenUrl` | UrlShortener/Services/ShortenerService.cs:28-60 | the result and the new table are those given by `Shorten`; a failure changes nothing; distinct short paths stay distinct |
| `Shortener.FirstUnusedIsFirst` | UrlShortener/Services/ShortenerService.cs:74-85 | an unused candidate with every earlier candidate in use is the loop's answer |
| `Shortener.AppendUnusedPathKeepsPathsDistinct` | UrlShortener/Services/ShortenerService.cs:56 | appending a row whose short path no row uses keeps short paths pairwise distinct |
| `ShortenerProperties.ShortenFailures` | UrlShortener/Services/ShortenerService.cs:28-60 | each failure and its exact message, in both directions: empty when null or ""; invalid when the normalised URL fails the pattern; exhausted when the URL is new and every candidate is in use; the table is unchanged on failure |
| `ShortenerProperties.ShortenReturnsExistingRow` | UrlShortener/Services/ShortenerService.cs:43-45 | when a row holds the normalised URL, the first such row is returned unchanged, whatever the request path, and the table is not modified |
| `ShortenerProperties.ShortenAppendsNewRow` | UrlShortener/Services/ShortenerService.cs:47-57 | a valid new URL gets exactly one appended row: (newId, normalised URL, requestPath + p, p), where p is the first unused candidate; its shortened URL is as long as requestPath and p together; earlier rows are unchanged |
| `ShortenerProperties.ShortenKeepsPathsDistinct` | UrlShortener/Services/ShortenerService.cs:47-57 | if short paths are pairwise distinct before a call, they are after it |
| `ShortenerProperties.ShortenKeepsUrlsDistinct` | UrlShortener/Services/ShortenerService.cs:43-57 | if original URLs are pairwise distinct before a call, they are after it |
| `ShortenerProperties.ResolveAfterShorten` | UrlShortener/Services/ShortenerService.cs:89-98 | with distinct short paths, resolving the short path of a successful shortening gives back the normalised URL |
| `ShortenerProperties.ResolveNewRow` | UrlShortener/Services/ShortenerService.cs:89-98 | resolving the short path of a row a call has just appended gives back the normalised URL, whatever else the table holds |
| `ShortenerProperties.ShortenIdempotent` | UrlShortener/Services/ShortenerService.cs:43-45 | shortening the same URL again returns the same row and leaves the table as it is, whatever request path and candidates the second call gets |
| `ShortenerProperties.MintedPathHasGeneratorShape` | UrlShortener/Services/ShortenerService.cs:76 | if every candidate comes from the corrected generator, a newly minted path is 2 to 5 letters and digits cut from the alphabet |
| `ShortenerProperties.PrefixScenarios` | UrlShortener.Tests/ServiceTests/UrlShortenerServiceTests.cs:38-72 | on an empty table, "http://www.bing.com" is stored as is and "www.bing.com" is stored as "http://www.bing.com", both with path "YyZz0"; the path has at most 25 characters and the shortened URL at least 21 |
| `ShortenerProperties.CollisionScenario` | UrlShortener.Tests/ServiceTests/UrlShortenerServiceTests.cs:74-92 | with "YyZz0" stored and draws "YyZz0", "11", "baz", the new row gets the path "11", not "YyZz0", and the shortened URL "http://localhost:80/11" |
| `ShortenerProperties.ExistingUrlScenario` | UrlShortener.Tests/ServiceTests/UrlShortenerServiceTests.cs:94-112 | shortening the stored "http://www.google.com" returns its row with the stored shortened URL |
| `ShortenerProperties.RejectionScenarios` | UrlShortener.Tests/ServiceTests/UrlShortenerServiceTests.cs:114-142 | null and "" fail with "Url to shorten cannot be empty"; "https://this-shouldn't.match@example.com" fails with "This is not a valid Url" |
| `ShortenerProperties.RedirectionScenarios` | UrlShortener.Tests/ServiceTests/UrlShortenerServiceTests.cs:153-183 | the stored "YyZz0" resolves to "http://www.google.com"; an unknown path fails with "Url Not Found" |

## Left out

- `FirstOrDefault` without an ordering is modelled as the first row in insertion order. The store
  does not promise which matching row it returns; this matters only when two rows share a URL or a
  short path, which `ShortenKeepsUrlsDistinct` and `ShortenKeepsPathsDistinct` show the service
  never creates.
- Entity Framework is not modelled: `UrlShortenerContext`, `DbSet`, `SaveChangesAsync` and
  `EnsureCreated`. The table is a sequence held by the service. The id the store assigns to a new
  row is the parameter `newId`.
- `async`/`await` and concurrency are not modelled. Calls run one after another, so the race
  between the URL lookup and the insert is not modelled.
- `System.Random` is not modelled. The generator's two draws are parameters. The paths the
  service's generator returns, one after another, are the input sequence `candidates`.
- Shortener.ShortenerService.GenerateUniqueShortUrlPath: does not loop forever. The source
  keeps drawing until a path is unused. The model stops when `candidates` runs out and returns
  None. `ShortenUrl` then fails with `CandidatesExhausted`, an outcome the source does not have.
- Shortener.Shorten: in the source, a draw with start + length > 62 makes the generator throw
  inside the retry loop, so `ShortenUrlAsync` throws `ArgumentOutOfRangeException` and appends
  nothing. `candidates` holds only draws that succeeded, so `Shorten` never fails this way.
- The .NET regular-expression engine is not modelled. Only the one pattern is encoded, over
  ASCII:
  - `\w` (for `\b`) is `[A-Za-z0-9_]`;
  - ignoring case means ASCII case only;
  - Unicode word characters and culture-specific case mappings are not modelled.
- `url.StartsWith("http")` is modelled as an ordinal prefix test. .NET's culture-sensitive
  comparison, which can skip ignorable characters, is not modelled.
- A null `requestPath` is not modelled. C# would concatenate it as empty. `requestPath` is a
  plain string.
- The controller is not modelled: routing, views, the exception-to-JSON wrapper, and building
  `requestPath` from the request's scheme and host.
- `IShortenerService` and `IShortUrlPathGenerator` are interfaces only. The test files are
  cited as scenarios; their mocking plumbing is not modelled.

## Findings

| source | as written | input that shows it | evidently intended | confidence | as-written member | corrected member |
|---|---|---|---|---|---|---|
| UrlShortener/Services/ShortUrlPathGenerator.cs:10 | `Substring(Next(0, 62), Next(2, 6))` draws the start and the length independently. `Substring` throws `ArgumentOutOfRangeException` whenever start + length > 62. That is 10 of the 248 draw pairs. | start 61, length 2 | a slice of 2 to 5 characters on every call, with the start drawn from [0, 62 − length] | high; not executed | `PathGenerator.GeneratorThrowsNearAlphabetEnd` | `PathGenerator.GenerateShortUrlPathInRange` |

/** URL normalisation (the `http://` prefix) and the service's one validation
    pattern: scheme `http` or `https`, an optional `www.`, a host of 1 to 256
    characters, a dot, a top-level label of 1 to 6 characters and a word
    boundary. The pattern ignores case and may match anywhere in the string. Its
    trailing group can match the empty string, so it never decides a match and
    is left out of the predicate below. Characters are treated as ASCII. */
module UrlValidation {
  import opened Models


  /** `[-a-zA-Z0-9@:%._\+~#=]` */
  predicate IsHostChar(c: char) {
    IsAsciiLetterOrDigit(c) || c in "-@:%._+~#="
  }

  /** `[a-zA-Z0-9()]` */
  predicate IsTldChar(c: char) {
    IsAsciiLetterOrDigit(c) || c == '(' || c == ')'
  }

  /** `\w`, restricted to ASCII. */
  predicate IsWordChar(c: char) {
    IsAsciiLetterOrDigit(c) || c == '_'
  }

  function ToLower(c: char): char {
    if 'A' <= c <= 'Z' then (c as int + 32) as char else c
  }

  /** s holds the lower-case literal lit at position i, ignoring ASCII case. */
  predicate HasAtIgnoreCase(s: string, i: nat, lit: string) {
    i + |lit| <= |s| && forall k | 0 <= k < |lit| :: ToLower(s[i + k]) == lit[k]
  }

  /** `\b` at position e: a word character on exactly one side of it. */
  predicate IsWordBoundary(s: string, e: nat)
    requires e <= |s|
  {
    (0 < e && IsWordChar(s[e - 1])) != (e < |s| && IsWordChar(s[e]))
  }

  /** The pattern matches a prefix of s, taking the optional `s` of the scheme
      when secure, the optional `www.` when www, a host of hostLen characters
      and a top-level label of tldLen characters. */
  predicate MatchesFromStart(s: string, secure: bool, www: bool, hostLen: nat, tldLen: nat) {
    var scheme := if secure then "https://" else "http://";
    var hostStart := |scheme| + (if www then 4 else 0);
    var dot := hostStart + hostLen;
    var end := dot + 1 + tldLen;
    && end <= |s|
    && HasAtIgnoreCase(s, 0, scheme)
    && (www ==> HasAtIgnoreCase(s, |scheme|, "www."))
    && 1 <= hostLen <= 256
    && (forall k | hostStart <= k < dot :: IsHostChar(s[k]))
    && s[dot] == '.'
    && 1 <= tldLen <= 6
    && (forall k | dot < k < end :: IsTldChar(s[k]))
    && IsWordBoundary(s, end)
  }

  /** `IsUrlValid`: the pattern matches somewhere in url, that is, it matches
      from the start of some suffix of url. (`\b` at the end of a match looks
      only at characters inside that suffix.) */
  predicate IsUrlValid(url: string): (r: bool)
    ensures r ==> 10 <= |url|
  {
    exists i: nat, secure: bool, www: bool, hostLen: nat, tldLen: nat
      | i <= |url| && 1 <= hostLen <= 256 && 1 <= tldLen <= 6
      :: MatchesFromStart(url[i..], secure, www, hostLen, tldLen)
  }

  /** `url.StartsWith("http")`. */
  predicate StartsWithHttp(url: string) {
    "http" <= url
  }

  /** The URL after the scheme check of `ShortenUrlAsync`: `http://` is put in
      front of anything that does not already begin with `http`. */
  function Normalize(url: string): (r: string)
    ensures StartsWithHttp(r)
    ensures r == url <==> StartsWithHttp(url)
    ensures r != url ==> r == "http://" + url
  {
    if StartsWithHttp(url) then url else "http://" + url
  }

  /** Normalising twice is normalising once: a URL is never prefixed twice. */
  lemma NormalizeIdempotent(url: string)
    ensures Normalize(Normalize(url)) == Normalize(url)
  {
  }

  /** Because the pattern is not anchored, text in front of a valid URL does
      not make it invalid. */
  lemma ValidityIgnoresPrefix(prefix: string, url: string)
    requires IsUrlValid(url)
    ensures IsUrlValid(prefix + url)
  {
    var i: nat, secure: bool, www: bool, hostLen: nat, tldLen: nat :|
      i <= |url| && 1 <= hostLen <= 256 && 1 <= tldLen <= 6 && MatchesFromStart(url[i..], secure, www, hostLen, tldLen);
    SuffixPastPrefix(prefix, url, i);
    assert MatchesFromStart((prefix + url)[|prefix| + i..], secure, www, hostLen, tldLen);
  }

  /** A suffix of url is also a suffix of prefix + url. */
  lemma SuffixPastPrefix(prefix: string, url: string, i: nat)
    requires i <= |url|
    ensures (prefix + url)[|prefix| + i..] == url[i..]
  {
  }

  /** "http://www.bing.com" is accepted: scheme, `www.`, host "bing", label "com". */
  lemma BingIsValid()
    ensures IsUrlValid("http://www.bing.com")
  {
    var s := "http://www.bing.com";
    assert s[0..] == s;
    assert HasAtIgnoreCase(s, 0, "http://") && HasAtIgnoreCase(s, 7, "www.");
    assert forall k | 11 <= k < 15 :: IsHostChar(s[k]);
    assert s[15] == '.' && forall k | 15 < k < 19 :: IsTldChar(s[k]);
    assert IsWordBoundary(s, 19);
    assert MatchesFromStart(s[0..], false, true, 4, 3);
  }

  /** "http://www.google.com" is accepted. */
  lemma GoogleIsValid()
    ensures IsUrlValid("http://www.google.com")
  {
    var s := "http://www.google.com";
    assert s[0..] == s;
    assert HasAtIgnoreCase(s, 0, "http://") && HasAtIgnoreCase(s, 7, "www.");
    assert forall k | 11 <= k < 17 :: IsHostChar(s[k]);
    assert s[17] == '.' && forall k | 17 < k < 21 :: IsTldChar(s[k]);
    assert IsWordBoundary(s, 21);
    assert MatchesFromStart(s[0..], false, true, 6, 3);
  }

  /** The parts of a match that pin down where it can start: the colon of the
      scheme, its first letter, the `w` of an optional `www.`, and the host that
      runs from the end of the scheme to the dot. */
  lemma MatchLandmarks(t: string, secure: bool, www: bool, hostLen: nat, tldLen: nat)
    ensures MatchesFromStart(t, secure, www, hostLen, tldLen) ==>
      var n := if secure then 8 else 7;
      var hostStart := n + (if www then 4 else 0);
      && hostStart + hostLen < |t|
      && t[n - 3] == ':' && ToLower(t[0]) == 'h'
      && (www ==> ToLower(t[n]) == 'w')
      && t[hostStart + hostLen] == '.'
      && forall k | hostStart <= k < hostStart + hostLen :: IsHostChar(t[k])
  {
    if MatchesFromStart(t, secure, www, hostLen, tldLen) {
      var scheme := if secure then "https://" else "http://";
      assert ToLower(t[0 + 0]) == scheme[0];
      assert ToLower(t[0 + (|scheme| - 3)]) == scheme[|scheme| - 3];
      if www {
        assert ToLower(t[|scheme| + 0]) == "www."[0];
      }
    }
  }

  /** "https://this-shouldn't.match@example.com" is rejected: its only colon
      forces the match to start at 0 with `https`, and the host that follows
      reaches the apostrophe before any dot. */
  lemma ApostropheUrlIsInvalid()
    ensures !IsUrlValid("https://this-shouldn't.match@example.com")
  {
    var s := "https://this-shouldn't.match@example.com";
    assert forall k | 0 <= k < |s| :: s[k] == ':' ==> k == 5;
    assert forall k | 8 <= k < 20 :: s[k] != '.';
    assert s[1] == 't' && s[8] == 't' && !IsHostChar(s[20]);
    forall i: nat, secure: bool, www: bool, hostLen: nat, tldLen: nat
      | i <= |s| && 1 <= hostLen <= 256 && 1 <= tldLen <= 6
      ensures !MatchesFromStart(s[i..], secure, www, hostLen, tldLen)
    {
      NoMatchBeforeDotlessHost(s, i, secure, www, hostLen, tldLen);
    }
  }

  /** A string whose only colon is that of a leading `https://`, whose host
      part has no dot before position 20 and holds a non-host character there,
      matches from no position. */
  lemma NoMatchBeforeDotlessHost(s: string, i: nat, secure: bool, www: bool, hostLen: nat, tldLen: nat)
    requires 20 < |s| && i <= |s|
    requires forall k | 0 <= k < |s| :: s[k] == ':' ==> k == 5
    requires forall k | 8 <= k < 20 :: s[k] != '.'
    requires s[1] == 't' && s[8] == 't' && !IsHostChar(s[20])
    ensures !MatchesFromStart(s[i..], secure, www, hostLen, tldLen)
  {
    MatchLandmarks(s[i..], secure, www, hostLen, tldLen);
  }
}

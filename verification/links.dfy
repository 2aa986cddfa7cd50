/**
 The URL preparation in `openLink`: an empty link opens nothing; a link that
 already starts (case-sensitively) with `http://` or `https://` is used as is;
 any other link is prefixed with `https://`. The tab and window handling that
 follows is host plumbing and is not modelled.
 */
module Links {
  import opened Text

  const Http := "http://"
  const Https := "https://"

  predicate HasScheme(link: string)
  {
    StartsWith(link, Http) || StartsWith(link, Https)
  }

  /** The URL opened for a non-empty link. */
  function NormalizeUrl(link: string): (url: string)
    ensures HasScheme(url)
    ensures url == link <==> HasScheme(link)
    ensures !HasScheme(link) ==> url == Https + link
    ensures |link| <= |url| && url[|url| - |link|..] == link
  {
    if HasScheme(link) then link
    else
      assert (Https + link)[..|Https|] == Https;
      Https + link
  }

  /** Normalising twice is normalising once. */
  lemma NormalizeUrlIdempotent(link: string)
    ensures NormalizeUrl(NormalizeUrl(link)) == NormalizeUrl(link)
  {
  }

  /** The scheme test is case-sensitive: an upper-case scheme gets a second one. */
  lemma SchemeIsCaseSensitive()
    ensures NormalizeUrl("HTTP://example.com") == "https://HTTP://example.com"
  {
    var link := "HTTP://example.com";
    assert link[0] == 'H';
    assert !HasScheme(link);
    var url := NormalizeUrl(link);
    assert url == Https + link;
  }

  /** The URLs a call to `openLink(link)` opens: none for an empty link, otherwise
      the normalised one. */
  function OpenLink(link: string): (urls: seq<string>)
    ensures urls == [] <==> link == ""
    ensures forall u :: u in urls ==> u == NormalizeUrl(link)
    ensures |urls| <= 1
  {
    if link == "" then [] else [NormalizeUrl(link)]
  }
}

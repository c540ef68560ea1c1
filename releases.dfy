/** The releases Lambda: it scans the releases table page by page, adds
    CloudFront image URLs to the items that carry an image or thumbnail key,
    and answers `{"count": n, "items": [...]}` with CORS headers.

    A DynamoDB item is modelled as a dictionary of string attributes. The
    table's answers to the successive `scan` requests are given as a
    sequence of pages; page `k` is the answer to the `k`-th request. */
module ReleasesLambda {
  import opened Records
  import opened Text

  /** A table item, and the `LastEvaluatedKey` of a page. */
  type Item = map<string, string>
  type Key = map<string, string>

  /** One `scan` answer: its `Items` and `LastEvaluatedKey`, either of which may be missing. */
  datatype Page = Page(items: Option<seq<Item>>, lastKey: Option<Key>)

  /** Python truthiness of a dictionary that may be `None`: present and non-empty. */
  predicate KeyTruthy(k: Option<Key>) {
    k.Some? && |k.value| > 0
  }

  /** The page after which the loop stops: it carries no further key. */
  predicate Final(p: Page) {
    !KeyTruthy(p.lastKey)
  }

  /** `dict.get(k)` on an item is truthy: present, and a non-empty string. */
  predicate HasValue(it: Item, k: string) {
    Truthy(Lookup(it, k))
  }

  /** `str.lstrip(chars)`: drops leading characters as long as they belong to
      the set `chars`. It removes a set of characters, not a prefix. */
  function Lstrip(s: string, chars: set<char>): string
    decreases |s|
  {
    if s != [] && s[0] in chars then Lstrip(s[1..], chars) else s
  }

  /** What `lstrip` leaves is the longest suffix that does not start with a
      character of the set: everything before it is in the set. */
  lemma {:induction false} LstripSuffix(s: string, chars: set<char>)
    ensures var r := Lstrip(s, chars);
      && |r| <= |s| && r == s[|s| - |r|..]
      && (forall k :: 0 <= k < |s| - |r| ==> s[k] in chars)
      && (r == [] || r[0] !in chars)
    decreases |s|
  {
    if s != [] && s[0] in chars {
      LstripSuffix(s[1..], chars);
      var r := Lstrip(s[1..], chars);
      assert s[1..][|s[1..]| - |r|..] == s[|s| - |r|..];
      forall k | 0 <= k < |s| - |r|
        ensures s[k] in chars
      {
        if k > 0 {
          assert s[k] == s[1..][k - 1];
        }
      }
    }
  }

  /** The characters of `"https://"` and of `"http://"`, as `lstrip` reads its argument. */
  const HttpsChars: set<char> := {'h', 't', 'p', 's', ':', '/'}
  const HttpChars: set<char> := {'h', 't', 'p', ':', '/'}

  /** `domain.lstrip("https://").lstrip("http://")`. */
  function StripScheme(domain: string): string {
    Lstrip(Lstrip(domain, HttpsChars), HttpChars)
  }

  /** Since the first set contains the second, the second strip changes
      nothing: the result is the longest suffix of `domain` that does not
      start with any of `h`, `t`, `p`, `s`, `:`, `/`. */
  lemma StripSchemeOnce(domain: string)
    ensures var d := StripScheme(domain);
      && d == Lstrip(domain, HttpsChars)
      && |d| <= |domain| && d == domain[|domain| - |d|..]
      && (forall k :: 0 <= k < |domain| - |d| ==> domain[k] in HttpsChars)
      && (d == [] || d[0] !in HttpsChars)
  {
    LstripSuffix(domain, HttpsChars);
    LstripNoOp(Lstrip(domain, HttpsChars), HttpsChars, HttpChars);
  }

  /** Stripping a set from a string that already starts outside a larger set changes nothing. */
  lemma LstripNoOp(s: string, outer: set<char>, inner: set<char>)
    requires inner <= outer
    requires s == [] || s[0] !in outer
    ensures Lstrip(s, inner) == s
  {
  }

  /** `key[1:]` when the key starts with `/`: at most one slash is removed. */
  function TrimSlash(key: string): (k: string)
    ensures key == (if key != [] && key[0] == '/' then "/" else "") + k
  {
    if key != [] && key[0] == '/' then key[1..] else key
  }

  /** `build_url(domain, key, proto)`. */
  function BuildUrl(domain: string, key: string, proto: string): string {
    proto + "://" + StripScheme(domain) + "/" + (if key != [] && key[0] == '/' then key[1..] else key)
  }

  /** The URL is the protocol, `://`, the domain with its leading scheme
      characters stripped once, one slash, and the key with at most one
      leading slash removed. */
  lemma BuildUrlShape(domain: string, key: string, proto: string)
    ensures BuildUrl(domain, key, proto) == proto + "://" + Lstrip(domain, HttpsChars) + "/" + TrimSlash(key)
  {
    StripSchemeOnce(domain);
  }

  /** Stripping a run of set characters in front of `rest` is stripping `rest`. */
  lemma {:induction false} LstripAppend(pre: string, rest: string, chars: set<char>)
    requires forall k :: 0 <= k < |pre| ==> pre[k] in chars
    ensures Lstrip(pre + rest, chars) == Lstrip(rest, chars)
    decreases |pre|
  {
    if pre != [] {
      assert (pre + rest)[0] == pre[0] && (pre + rest)[1..] == pre[1..] + rest;
      LstripAppend(pre[1..], rest, chars);
    } else {
      assert pre + rest == rest;
    }
  }

  /** A scheme in front of the domain is not removed as a prefix: letters of
      the host that belong to the set go with it. */
  lemma StripEatsHost(host: string)
    requires host == [] || host[0] !in HttpsChars
    ensures StripScheme("https://sh" + host) == host
  {
    var pre: string := ['h', 't', 't', 'p', 's', ':', '/', '/', 's', 'h'];
    SchemeRun(pre);
    assert pre == "https://sh";
    LstripAppend(pre, host, HttpsChars);
    LstripNoOp(host, HttpsChars, HttpsChars);
    StripSchemeOnce(pre + host);
  }

  /** Each character of the run is one `lstrip` removes. */
  lemma SchemeRun(pre: string)
    requires forall k :: 0 <= k < |pre| ==> pre[k] in {'h', 't', 'p', 's', ':', '/'}
    ensures forall k :: 0 <= k < |pre| ==> pre[k] in HttpsChars
  {
  }

  /** A host name that starts outside the set, like a CloudFront `d…` name, is kept whole. */
  lemma StripKeepsHost(host: string)
    requires host != [] && host[0] !in HttpsChars
    ensures StripScheme(host) == host
    ensures StripScheme("https://" + host) == host
  {
    LstripNoOp(host, HttpsChars, HttpsChars);
    var pre: string := ['h', 't', 't', 'p', 's', ':', '/', '/'];
    assert pre == "https://";
    LstripAppend(pre, host, HttpsChars);
    StripSchemeOnce(host);
    StripSchemeOnce(pre + host);
  }

  /** The example of a shop domain: `https://shop.example.com` loses the `sh` of its host. */
  lemma ShopExample()
    ensures StripScheme("https://shop.example.com") == "op.example.com"
  {
    assert "https://shop.example.com" == "https://sh" + "op.example.com";
    StripEatsHost("op.example.com");
  }

  /** A key with two leading slashes keeps one of them. */
  lemma TrimSlashOnce(rest: string)
    ensures TrimSlash("//" + rest) == "/" + rest
    ensures TrimSlash("/" + rest) == rest
  {
    assert ("//" + rest)[1..] == "/" + rest;
    assert ("/" + rest)[1..] == rest;
  }

  /** `resp.get("Items", [])`. */
  function PageItems(p: Page): seq<Item> {
    if p.items.Some? then p.items.value else []
  }

  /** The items of the pages, in order. */
  function Concat(pages: seq<Page>): seq<Item>
    decreases |pages|
  {
    if pages == [] then [] else Concat(pages[..|pages| - 1]) + PageItems(pages[|pages| - 1])
  }

  lemma ConcatStep(pages: seq<Page>, n: nat)
    requires n < |pages|
    ensures Concat(pages[..n + 1]) == Concat(pages[..n]) + PageItems(pages[n])
  {
    assert pages[..n + 1][..n] == pages[..n];
  }

  /** Concatenation keeps every item of every page, in page order. */
  lemma {:induction false} ConcatAppend(pages: seq<Page>, more: seq<Page>)
    ensures Concat(pages + more) == Concat(pages) + Concat(more)
    decreases |more|
  {
    if more != [] {
      var init := more[..|more| - 1];
      assert (pages + more)[..|pages + more| - 1] == pages + init;
      ConcatAppend(pages, init);
    } else {
      assert pages + more == pages;
    }
  }

  /** The table eventually answers with a page that carries no key. */
  predicate Ends(pages: seq<Page>) {
    exists k :: 0 <= k < |pages| && Final(pages[k])
  }

  /** The index of the first page without a key. */
  function FirstFinal(pages: seq<Page>): (n: nat)
    requires Ends(pages)
    ensures n < |pages| && Final(pages[n])
    ensures forall k :: 0 <= k < n ==> !Final(pages[k])
    decreases |pages|
  {
    if Final(pages[0]) then 0
    else
      assert Ends(pages[1..]) by {
        var k :| 0 <= k < |pages| && Final(pages[k]);
        assert pages[1..][k - 1] == pages[k];
      }
      1 + FirstFinal(pages[1..])
  }

  /** The first `n` requests: the first carries no start key, each later one
      the key of the page before it. */
  predicate Requested(pages: seq<Page>, requests: seq<Option<Key>>, n: nat) {
    && |requests| == n && n <= |pages| + 1
    && (n > 0 ==> requests[0] == None)
    && forall k :: 0 < k < n ==> requests[k] == pages[k - 1].lastKey && KeyTruthy(requests[k])
  }

  lemma RequestedStep(pages: seq<Page>, requests: seq<Option<Key>>, n: nat, startKey: Option<Key>)
    requires Requested(pages, requests, n) && n < |pages|
    requires n == 0 ==> startKey == None
    requires n > 0 ==> startKey == pages[n - 1].lastKey && KeyTruthy(startKey)
    ensures Requested(pages, requests + [startKey], n + 1)
  {
  }

  /** The paging loop: request after request, each after the first carrying
      the key of the page before it, until a page comes back without a key.
      `requests[k]` is the `ExclusiveStartKey` of the `k`-th request. */
  method ScanAll(pages: seq<Page>) returns (items: seq<Item>, requests: seq<Option<Key>>)
    requires Ends(pages)
    ensures items == Concat(pages[..FirstFinal(pages) + 1])
    ensures |requests| == FirstFinal(pages) + 1
    ensures requests[0] == None
    ensures forall k :: 0 < k < |requests| ==> requests[k] == pages[k - 1].lastKey && KeyTruthy(requests[k])
  {
    ghost var last := FirstFinal(pages);
    items := [];
    requests := [];
    var startKey: Option<Key> := None;
    var exclusiveStartKey: Option<Key> := None;
    var n := 0;
    while true
      invariant n <= last
      invariant items == Concat(pages[..n])
      invariant Requested(pages, requests, n)
      invariant n == 0 ==> startKey == None && exclusiveStartKey == None
      invariant n > 0 ==> startKey == pages[n - 1].lastKey && KeyTruthy(startKey)
      decreases last - n
    {
      if KeyTruthy(startKey) {
        exclusiveStartKey := startKey;
      }
      RequestedStep(pages, requests, n, exclusiveStartKey);
      requests := requests + [exclusiveStartKey];
      var resp := pages[n];
      ConcatStep(pages, n);
      items := items + PageItems(resp);
      startKey := resp.lastKey;
      if !KeyTruthy(startKey) {
        assert Final(pages[n]);
        assert n == last;
        break;
      }
      n := n + 1;
    }
  }

  /** One `if domain and key: it[field] = build_url(domain, key, proto)`. */
  function WithUrl(it: Item, field: string, key: Option<string>, domain: string, proto: string): Item
  {
    if domain != "" && Truthy(key) then it[field := BuildUrl(domain, key.value, proto)] else it
  }

  /** The body of the mapping loop for one item: `image_url` is set from
      `image_key` and `thumb_url` from `thumb_key` when the domain is
      non-empty and the key is truthy. */
  function Enrich(it: Item, domain: string, proto: string): Item {
    var withImage := WithUrl(it, "image_url", Lookup(it, "image_key"), domain, proto);
    WithUrl(withImage, "thumb_url", Lookup(it, "thumb_key"), domain, proto)
  }

  /** Enriching adds `image_url` exactly when the domain is non-empty and
      `image_key` is truthy, `thumb_url` likewise with `thumb_key`, and no other field. */
  lemma EnrichKeys(it: Item, domain: string, proto: string)
    ensures Enrich(it, domain, proto).Keys == it.Keys
      + (if domain != "" && HasValue(it, "image_key") then {"image_url"} else {})
      + (if domain != "" && HasValue(it, "thumb_key") then {"thumb_url"} else {})
  {
  }

  /** Every field other than the two URLs keeps its value. */
  lemma EnrichKeepsFields(it: Item, domain: string, proto: string, k: string)
    requires k in it && k != "image_url" && k != "thumb_url"
    ensures k in Enrich(it, domain, proto) && Enrich(it, domain, proto)[k] == it[k]
  {
  }

  /** The URL fields: built from their keys when those are truthy and the
      domain is non-empty, and otherwise left as the item had them. */
  lemma EnrichUrls(it: Item, domain: string, proto: string)
    ensures var r := Enrich(it, domain, proto);
      && (domain != "" && HasValue(it, "image_key") ==> "image_url" in r && r["image_url"] == BuildUrl(domain, it["image_key"], proto))
      && (domain != "" && HasValue(it, "thumb_key") ==> "thumb_url" in r && r["thumb_url"] == BuildUrl(domain, it["thumb_key"], proto))
      && (!(domain != "" && HasValue(it, "image_key")) ==> Lookup(r, "image_url") == Lookup(it, "image_url"))
      && (!(domain != "" && HasValue(it, "thumb_key")) ==> Lookup(r, "thumb_url") == Lookup(it, "thumb_url"))
  {
    FieldsDistinct();
  }

  /** The four field names involved are different strings. */
  lemma FieldsDistinct()
    ensures "image_url" != "thumb_url" && "image_url" != "image_key" && "image_url" != "thumb_key"
    ensures "thumb_url" != "image_key" && "thumb_url" != "thumb_key"
  {
    assert "image_url"[0] == 'i' && "thumb_url"[0] == 't';
    assert "image_url"[6] == 'u' && "image_key"[6] == 'k' && "thumb_key"[0] == 't';
    assert "thumb_url"[6] == 'u' && "thumb_key"[6] == 'k' && "image_key"[0] == 'i';
  }

  /** Without a domain every item goes out unchanged. */
  lemma NoDomainNoChange(it: Item, proto: string)
    ensures Enrich(it, "", proto) == it
  {
  }

  /** The mapping loop: each item is enriched where it stands (the list keeps
      the same dictionaries) and appended to `out`. */
  method MapItems(items: array<Item>, domain: string, proto: string) returns (out: seq<Item>)
    modifies items
    ensures out == items[..]
    ensures forall k :: 0 <= k < items.Length ==> items[k] == Enrich(old(items[k]), domain, proto)
  {
    out := [];
    for i := 0 to items.Length
      invariant out == items[..i]
      invariant forall k :: 0 <= k < i ==> items[k] == Enrich(old(items[k]), domain, proto)
      invariant forall k :: i <= k < items.Length ==> items[k] == old(items[k])
    {
      var it := items[i];
      ghost var original := it;
      var imageKey := Lookup(it, "image_key");
      var thumbKey := Lookup(it, "thumb_key");
      if domain != "" && Truthy(imageKey) {
        it := it["image_url" := BuildUrl(domain, imageKey.value, proto)];
      }
      assert it == WithUrl(original, "image_url", imageKey, domain, proto);
      ghost var withImage := it;
      if domain != "" && Truthy(thumbKey) {
        it := it["thumb_url" := BuildUrl(domain, thumbKey.value, proto)];
      }
      assert it == WithUrl(withImage, "thumb_url", thumbKey, domain, proto);
      EnrichSteps(original, domain, proto, imageKey, thumbKey, it);
      items[i] := it;
      out := out + [it];
    }
  }

  /** The two conditional assignments of the loop body make up `Enrich`. */
  lemma EnrichSteps(it: Item, domain: string, proto: string, imageKey: Option<string>, thumbKey: Option<string>, result: Item)
    requires imageKey == Lookup(it, "image_key") && thumbKey == Lookup(it, "thumb_key")
    requires result == WithUrl(WithUrl(it, "image_url", imageKey, domain, proto), "thumb_url", thumbKey, domain, proto)
    ensures result == Enrich(it, domain, proto)
  {
  }

  /** The JSON body: the number of items and the items. */
  datatype Body = Body(count: int, items: seq<Item>)

  /** The response; `body` is what `json.dumps` serialises. */
  datatype Response = Response(statusCode: int, headers: map<string, string>, body: Body)

  /** `os.environ.get(name, default)`: a variable that is set wins, even when empty. */
  function EnvGet(env: map<string, string>, name: string, default: string): (v: string)
    ensures name in env ==> v == env[name]
    ensures name !in env ==> v == default
  {
    if name in env then env[name] else default
  }

  const CorsHeaders: map<string, string> := map[
    "Content-Type" := "application/json",
    "Access-Control-Allow-Origin" := "*",
    "Access-Control-Allow-Methods" := "GET,OPTIONS",
    "Access-Control-Allow-Headers" := "Content-Type"]

  /** `lambda_handler`: scan every page, enrich every item, answer 200. */
  method Handler(env: map<string, string>, pages: seq<Page>) returns (response: Response)
    requires Ends(pages)
    ensures response.statusCode == 200 && response.headers == CorsHeaders
    ensures var scanned := Concat(pages[..FirstFinal(pages) + 1]);
      var domain := EnvGet(env, "CLOUDFRONT_DOMAIN", "");
      var proto := EnvGet(env, "IMAGE_PROTOCOL", "https");
      && response.body.count == |response.body.items| == |scanned|
      && forall k :: 0 <= k < |scanned| ==> response.body.items[k] == Enrich(scanned[k], domain, proto)
  {
    var domain := EnvGet(env, "CLOUDFRONT_DOMAIN", "");
    var proto := EnvGet(env, "IMAGE_PROTOCOL", "https");
    var items, _ := ScanAll(pages);
    var list := new Item[|items|](k requires 0 <= k < |items| => items[k]);
    var out := MapItems(list, domain, proto);
    response := Response(200, CorsHeaders, Body(|out|, out));
  }
}

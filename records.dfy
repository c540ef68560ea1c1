/** Values shared by the site's services and components: the optional value
    used for JavaScript's null/undefined, JavaScript truthiness on optional
    strings, and the content record (a release) that the site's pages and the
    playback store pass around. */
module Records {

  /** A value that may be absent (JavaScript `null` or `undefined`). */
  datatype Option<+T> = None | Some(value: T)

  /** JavaScript truthiness of an optional string: present and non-empty. */
  predicate Truthy(s: Option<string>) {
    s.Some? && s.value != ""
  }

  /** JavaScript `a || b` on optional strings: `a` when it is truthy, else `b`. */
  function Or(a: Option<string>, b: Option<string>): (r: Option<string>)
    ensures Truthy(r) <==> Truthy(a) || Truthy(b)
    ensures Truthy(a) ==> r == a
    ensures !Truthy(a) ==> r == b
  {
    if Truthy(a) then a else b
  }

  /** JavaScript `a || d` with a string literal `d` as the last alternative. */
  function OrElse(a: Option<string>, d: string): (r: string)
    ensures Truthy(a) ==> r == a.value
    ensures !Truthy(a) ==> r == d
  {
    if Truthy(a) then a.value else d
  }

  /** `m[k]` on a JavaScript object used as a dictionary; a missing key is `undefined`. */
  function Lookup(m: map<string, string>, k: string): (r: Option<string>)
    ensures r.Some? <==> k in m
    ensures r.Some? ==> r.value == m[k]
  {
    if k in m then Some(m[k]) else None
  }

  /** A content record as the pages and the playback store see it. `links` and
      `preSaveLinks` map a platform name (`youtubeMusic`, `spotify`, ...) to a
      URL; a missing object is the empty map. `kind` is the record's `type`
      field and `featured` its truthiness. */
  datatype Release = Release(
    title: Option<string>,
    artist: Option<string>,
    coverArt: Option<string>,
    heroImage: Option<string>,
    links: map<string, string>,
    preSaveLinks: map<string, string>,
    kind: Option<string>,
    featured: bool,
    releaseDate: Option<string>)
}

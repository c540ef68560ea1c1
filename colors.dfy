/** The palette step of the colour extractor: from the RGBA bytes of a
    down-scaled cover image to a list of CSS colours for a background
    gradient.

    Every 4th pixel is sampled; transparent, near-white and near-black
    samples are skipped; the rest are quantised to multiples of 32 per
    channel and counted in a JavaScript `Map`, whose entries keep the order in
    which their keys were first set. The entries are ranked by count (a
    stable sort, so equal counts keep first-seen order), the first
    `colorCount` are darkened to 70% and written as `rgb(r, g, b)`, and black
    is appended; no entry at all gives a fixed fallback palette. The map's
    string key `"r,g,b"` is modelled by the triple it is built from and
    parsed back into. */
module Colors {
  import opened Records
  import opened Text
  import opened Sorting

  /** One channel value of a `Uint8ClampedArray`. */
  type Byte = x: int | 0 <= x < 256

  /** A quantised colour, the key of the histogram. */
  datatype Rgb = Rgb(r: int, g: int, b: int)

  /** One histogram entry: a colour and how many samples fell on it. */
  datatype Entry = Entry(color: Rgb, count: nat)

  /** `i += step * 4` with `step = 4`: one sample every 16 bytes. */
  const SampleStride: nat := 16

  /** The palette used when no sample survives. */
  const Fallback: seq<string> := ["#1f0e04", "#030b23", "#000"]

  /** Skipped samples: transparent, near-white or near-black. */
  predicate Excluded(r: int, g: int, b: int, a: int) {
    a < 128 || (r > 240 && g > 240 && b > 240) || (r < 15 && g < 15 && b < 15)
  }

  /** `Math.round(c / 32) * 32`: the nearest multiple of 32, halves rounding up. */
  function Quantize(c: Byte): (q: int)
    ensures q % 32 == 0 && 0 <= q <= 256
    ensures q - 16 <= c < q + 16
  {
    (c + 16) / 32 * 32
  }

  /** A colour every channel of which is a quantised value. */
  predicate Quantised(c: Rgb) {
    && c.r % 32 == 0 && 0 <= c.r <= 256
    && c.g % 32 == 0 && 0 <= c.g <= 256
    && c.b % 32 == 0 && 0 <= c.b <= 256
  }

  /** A sample that starts before the end of a whole-pixel buffer has all four channels. */
  lemma Aligned(i: nat, n: nat)
    requires i % 16 == 0 && n % 4 == 0 && i < n
    ensures i + 4 <= n
  {
  }

  /** The sample at byte `i` is counted. */
  predicate Kept(px: seq<Byte>, i: nat)
    requires |px| % 4 == 0 && i % 16 == 0 && i < |px|
  {
    Aligned(i, |px|);
    !Excluded(px[i], px[i + 1], px[i + 2], px[i + 3])
  }

  /** The key of the sample at byte `i`. */
  function KeyAt(px: seq<Byte>, i: nat): (c: Rgb)
    requires |px| % 4 == 0 && i % 16 == 0 && i < |px|
    ensures Quantised(c)
  {
    Aligned(i, |px|);
    Rgb(Quantize(px[i]), Quantize(px[i + 1]), Quantize(px[i + 2]))
  }

  /** The keys of the counted samples that start below byte `i`, in sampling order. */
  function KeysBelow(px: seq<Byte>, i: nat): (keys: seq<Rgb>)
    requires |px| % 4 == 0 && i % 16 == 0 && i < |px| + 16
    decreases i
  {
    if i == 0 then []
    else KeysBelow(px, i - 16) + (if Kept(px, i - 16) then [KeyAt(px, i - 16)] else [])
  }

  lemma {:induction false} KeysQuantised(px: seq<Byte>, i: nat)
    requires |px| % 4 == 0 && i % 16 == 0 && i < |px| + 16
    ensures forall k :: 0 <= k < |KeysBelow(px, i)| ==> Quantised(KeysBelow(px, i)[k])
    decreases i
  {
    if i > 0 {
      KeysQuantised(px, i - 16);
    }
  }

  /** The first multiple of 16 at or beyond `n`: where the sampling loop stops. */
  function SampleEnd(n: nat): (e: nat)
    ensures e % 16 == 0 && n <= e < n + 16
  {
    (n + 15) / 16 * 16
  }

  lemma SampleEndUnique(i: nat, n: nat)
    requires i % 16 == 0 && n <= i < n + 16
    ensures i == SampleEnd(n)
  {
  }

  /** The keys of all counted samples of the image. */
  function Keys(px: seq<Byte>): seq<Rgb>
    requires |px| % 4 == 0
  {
    KeysBelow(px, SampleEnd(|px|))
  }

  /** Only the four bytes of every 4th pixel are read: images that agree on
      them give the same keys. */
  lemma {:induction false} KeysReadOnlySamples(px: seq<Byte>, qx: seq<Byte>, i: nat)
    requires |px| == |qx| && |px| % 4 == 0 && i % 16 == 0 && i < |px| + 16
    requires forall j :: 0 <= j < |px| && j % 16 < 4 ==> px[j] == qx[j]
    ensures KeysBelow(px, i) == KeysBelow(qx, i)
    decreases i
  {
    if i > 0 {
      KeysReadOnlySamples(px, qx, i - 16);
      var j := i - 16;
      Aligned(j, |px|);
      assert px[j] == qx[j] && px[j + 1] == qx[j + 1] && px[j + 2] == qx[j + 2] && px[j + 3] == qx[j + 3];
    }
  }

  /** The colours of `s` in the order they first occur, each once. */
  function FirstSeen(s: seq<Rgb>): (r: seq<Rgb>)
    ensures forall c :: c in r <==> c in s
    ensures forall i, j :: 0 <= i < j < |r| ==> r[i] != r[j]
    decreases |s|
  {
    if s == [] then []
    else
      var prior := FirstSeen(s[..|s| - 1]);
      assert s == s[..|s| - 1] + [s[|s| - 1]];
      if s[|s| - 1] in s[..|s| - 1] then prior else prior + [s[|s| - 1]]
  }

  /** `Map` lookup on the entries: the position of `c`, if present. */
  function IndexFrom(h: seq<Entry>, c: Rgb, i: nat): (r: Option<nat>)
    requires i <= |h|
    ensures r.Some? ==> i <= r.value < |h| && h[r.value].color == c
    ensures r.Some? ==> forall j :: i <= j < r.value ==> h[j].color != c
    ensures r.None? ==> forall j :: i <= j < |h| ==> h[j].color != c
    decreases |h| - i
  {
    if i == |h| then None
    else if h[i].color == c then Some(i)
    else IndexFrom(h, c, i + 1)
  }

  /** `colorMap.get(c)`. */
  function Get(h: seq<Entry>, c: Rgb): Option<nat> {
    match IndexFrom(h, c, 0)
    case Some(i) => Some(h[i].count)
    case None => None
  }

  /** `colorMap.set(c, n)`: an existing entry is updated where it stands; a
      new key goes to the end. */
  function Set(h: seq<Entry>, c: Rgb, n: nat): seq<Entry> {
    match IndexFrom(h, c, 0)
    case Some(i) => h[i := Entry(c, n)]
    case None => h + [Entry(c, n)]
  }

  /** How often `c` has been counted so far: `colorMap.get(c) || 0`. */
  function CountOf(h: seq<Entry>, c: Rgb): nat {
    match Get(h, c)
    case Some(n) => n
    case None => 0
  }

  /** The histogram as the loop builds it: starting from the empty map, one
      `set(key, (get(key) || 0) + 1)` per counted key. */
  function Tally(keys: seq<Rgb>): seq<Entry>
    decreases |keys|
  {
    if keys == [] then []
    else
      var h := Tally(keys[..|keys| - 1]);
      Set(h, keys[|keys| - 1], CountOf(h, keys[|keys| - 1]) + 1)
  }

  lemma TallySnoc(keys: seq<Rgb>, x: Rgb)
    ensures Tally(keys + [x]) == Set(Tally(keys), x, CountOf(Tally(keys), x) + 1)
  {
    assert (keys + [x])[..|keys|] == keys;
  }

  /** The histogram defined without the loop: one entry per distinct key in
      first-seen order, holding how often the key occurs. */
  function Histogram(keys: seq<Rgb>): seq<Entry> {
    var order := FirstSeen(keys);
    seq(|order|, i requires 0 <= i < |order| => Entry(order[i], multiset(keys)[order[i]]))
  }

  /** A key seen before: its entry is counted up where it stands. */
  lemma HistogramSnocSeen(keys: seq<Rgb>, x: Rgb)
    requires x in keys
    ensures Histogram(keys + [x]) == Set(Histogram(keys), x, CountOf(Histogram(keys), x) + 1)
  {
    var s := keys + [x];
    assert s[..|s| - 1] == keys;
    var order := FirstSeen(keys);
    var h := Histogram(keys);
    var h' := Histogram(s);
    assert forall i :: 0 <= i < |h| ==> h[i].color == order[i];
    assert FirstSeen(s) == order;
    var p :| 0 <= p < |order| && order[p] == x;
    assert h[p].color == x;
    assert forall q :: 0 <= q < |h| && h[q].color == x ==> q == p;
    assert IndexFrom(h, x, 0) == Some(p);
    var updated := h[p := Entry(x, multiset(keys)[x] + 1)];
    forall i | 0 <= i < |h'|
      ensures h'[i] == updated[i]
    {
      if i != p {
        assert order[i] != x;
      }
    }
  }

  /** A new key: its entry goes to the end with count 1. */
  lemma HistogramSnocNew(keys: seq<Rgb>, x: Rgb)
    requires x !in keys
    ensures Histogram(keys + [x]) == Set(Histogram(keys), x, CountOf(Histogram(keys), x) + 1)
  {
    var s := keys + [x];
    assert s[..|s| - 1] == keys;
    var order := FirstSeen(keys);
    var h := Histogram(keys);
    var h' := Histogram(s);
    assert FirstSeen(s) == order + [x];
    assert forall j :: 0 <= j < |h| ==> h[j].color == order[j] && order[j] in keys && h[j].color != x;
    assert IndexFrom(h, x, 0).None?;
    var appended := h + [Entry(x, 1)];
    forall i | 0 <= i < |h'|
      ensures h'[i] == appended[i]
    {
      if i < |h| {
        assert order[i] in keys;
      }
    }
  }

  /** The loop's map is the histogram of the keys. */
  lemma {:induction false} TallyIsHistogram(keys: seq<Rgb>)
    ensures Tally(keys) == Histogram(keys)
    decreases |keys|
  {
    if keys != [] {
      var init, x := keys[..|keys| - 1], keys[|keys| - 1];
      assert keys == init + [x];
      TallyIsHistogram(init);
      if x in init {
        HistogramSnocSeen(init, x);
      } else {
        HistogramSnocNew(init, x);
      }
    }
  }

  /** The sum of the counts. */
  function Total(h: seq<Entry>): nat
    decreases |h|
  {
    if h == [] then 0 else Total(h[..|h| - 1]) + h[|h| - 1].count
  }

  lemma {:induction false} TotalUpdate(h: seq<Entry>, p: nat, e: Entry)
    requires p < |h|
    ensures Total(h[p := e]) + h[p].count == Total(h) + e.count
    decreases |h|
  {
    var u := h[p := e];
    if p < |h| - 1 {
      assert u[..|u| - 1] == h[..|h| - 1][p := e];
      TotalUpdate(h[..|h| - 1], p, e);
    } else {
      assert u[..|u| - 1] == h[..|h| - 1];
    }
  }

  /** The histogram has one entry per distinct key, in first-seen order,
      each counting exactly the occurrences of its key. */
  lemma HistogramEntries(keys: seq<Rgb>)
    ensures forall i, j :: 0 <= i < j < |Histogram(keys)| ==> Histogram(keys)[i].color != Histogram(keys)[j].color
    ensures forall i :: 0 <= i < |Histogram(keys)| ==> Histogram(keys)[i].count == multiset(keys)[Histogram(keys)[i].color] > 0
    ensures forall c :: c in keys ==> exists i :: 0 <= i < |Histogram(keys)| && Histogram(keys)[i].color == c
    ensures forall i :: 0 <= i < |Histogram(keys)| ==> Histogram(keys)[i].color in keys
    ensures Histogram(keys) == [] <==> keys == []
  {
    var h := Histogram(keys);
    var order := FirstSeen(keys);
    assert forall i :: 0 <= i < |h| ==> h[i].color == order[i] && order[i] in keys;
    forall c | c in keys
      ensures exists i :: 0 <= i < |h| && h[i].color == c
    {
      var i :| 0 <= i < |order| && order[i] == c;
      assert h[i].color == c;
    }
    if keys != [] {
      assert keys[0] in keys;
    }
  }

  /** The counts add up to the number of counted samples. */
  lemma {:induction false} TallyTotal(keys: seq<Rgb>)
    ensures Total(Tally(keys)) == |keys|
    decreases |keys|
  {
    if keys != [] {
      var init, x := keys[..|keys| - 1], keys[|keys| - 1];
      assert keys == init + [x];
      TallyTotal(init);
      TallySnoc(init, x);
      var hi := Tally(init);
      match IndexFrom(hi, x, 0)
      case Some(p) =>
        TotalUpdate(hi, p, Entry(x, hi[p].count + 1));
      case None =>
        assert (hi + [Entry(x, 1)])[..|hi|] == hi;
    }
  }

  /** A colour's count is the number of counted samples quantising to it. */
  function SamplesOf(px: seq<Byte>, i: nat, c: Rgb): nat
    requires |px| % 4 == 0 && i % 16 == 0 && i < |px| + 16
    decreases i
  {
    if i == 0 then 0
    else SamplesOf(px, i - 16, c) + (if Kept(px, i - 16) && KeyAt(px, i - 16) == c then 1 else 0)
  }

  lemma {:induction false} CountIsSamples(px: seq<Byte>, i: nat, c: Rgb)
    requires |px| % 4 == 0 && i % 16 == 0 && i < |px| + 16
    ensures multiset(KeysBelow(px, i))[c] == SamplesOf(px, i, c)
    decreases i
  {
    if i > 0 {
      var j := i - 16;
      CountIsSamples(px, j, c);
      var prior := KeysBelow(px, j);
      if Kept(px, j) {
        var key := KeyAt(px, j);
        assert KeysBelow(px, i) == prior + [key];
        assert multiset(prior + [key]) == multiset(prior) + multiset{key};
      } else {
        assert KeysBelow(px, i) == prior;
      }
    }
  }

  /** One more sample: its key is appended exactly when it is counted. */
  lemma SampleStep(px: seq<Byte>, i: nat)
    requires |px| % 4 == 0 && i % 16 == 0 && i < |px|
    ensures i + 4 <= |px|
    ensures var key := Rgb(Quantize(px[i]), Quantize(px[i + 1]), Quantize(px[i + 2]));
      KeysBelow(px, i + 16) == KeysBelow(px, i) + (if !Excluded(px[i], px[i + 1], px[i + 2], px[i + 3]) then [key] else [])
  {
    Aligned(i, |px|);
  }

  /** One iteration of the sampling loop, on the tally of the samples before it. */
  lemma HistogramStep(px: seq<Byte>, i: nat, h: seq<Entry>)
    requires |px| % 4 == 0 && i % 16 == 0 && i < |px|
    requires h == Tally(KeysBelow(px, i))
    ensures i + 4 <= |px|
    ensures var key := Rgb(Quantize(px[i]), Quantize(px[i + 1]), Quantize(px[i + 2]));
      Tally(KeysBelow(px, i + 16)) ==
        if Excluded(px[i], px[i + 1], px[i + 2], px[i + 3]) then h else Set(h, key, CountOf(h, key) + 1)
  {
    SampleStep(px, i);
    var key := Rgb(Quantize(px[i]), Quantize(px[i + 1]), Quantize(px[i + 2]));
    if Excluded(px[i], px[i + 1], px[i + 2], px[i + 3]) {
      assert KeysBelow(px, i + 16) == KeysBelow(px, i) + [];
      assert KeysBelow(px, i) + [] == KeysBelow(px, i);
    } else {
      TallySnoc(KeysBelow(px, i), key);
    }
  }

  /** The sampling loop: the histogram of the counted samples. */
  method ColorHistogram(pixels: array<Byte>) returns (colorMap: seq<Entry>)
    requires pixels.Length % 4 == 0
    ensures colorMap == Tally(Keys(pixels[..]))
    ensures colorMap == Histogram(Keys(pixels[..]))
  {
    ghost var px := pixels[..];
    colorMap := [];
    var i := 0;
    while i < pixels.Length
      invariant i % 16 == 0 && i < pixels.Length + 16
      invariant colorMap == Tally(KeysBelow(px, i))
      decreases pixels.Length - i
    {
      HistogramStep(px, i, colorMap);
      var r, g, b, a := pixels[i], pixels[i + 1], pixels[i + 2], pixels[i + 3];
      assert r == px[i] && g == px[i + 1] && b == px[i + 2] && a == px[i + 3];
      if !Excluded(r, g, b, a) {
        var key := Rgb(Quantize(r), Quantize(g), Quantize(b));
        var previous := Get(colorMap, key);
        colorMap := Set(colorMap, key, (if previous.Some? then previous.value else 0) + 1);
      }
      i := i + SampleStride;
    }
    SampleEndUnique(i, pixels.Length);
    TallyIsHistogram(Keys(px));
  }

  /** The comparator `(a, b) => b[1] - a[1]`: `a` goes first when it is more frequent. */
  predicate MoreFrequent(a: Entry, b: Entry) {
    a.count > b.count
  }

  lemma MoreFrequentOrder()
    ensures StrictWeakOrder(MoreFrequent)
  {
  }

  /** The entries after `.sort(...)`. */
  function Ranked(h: seq<Entry>): seq<Entry> {
    InsertionSort(h, MoreFrequent)
  }

  /** The ranking orders by non-increasing count, is a permutation of the
      histogram, and entries of equal count keep their first-seen order. */
  lemma RankingOrder(h: seq<Entry>, z: Entry)
    ensures forall i, j :: 0 <= i < j < |Ranked(h)| ==> Ranked(h)[i].count >= Ranked(h)[j].count
    ensures multiset(Ranked(h)) == multiset(h)
    ensures Ties(Ranked(h), z, MoreFrequent) == Ties(h, z, MoreFrequent)
  {
    MoreFrequentOrder();
    SortSorted(h, MoreFrequent);
    SortPermutes(h, MoreFrequent);
    SortStable(h, z, MoreFrequent);
  }

  /** Two entries tie exactly when their counts are equal. */
  lemma TieIsEqualCount(a: Entry, b: Entry)
    ensures Tie(a, b, MoreFrequent) <==> a.count == b.count
  {
  }

  /** The end index of `.slice(0, end)` on a list of `n`: a negative end
      counts from the back. */
  function SliceEnd(n: nat, end: int): (e: nat)
    ensures e <= n
    ensures end >= 0 ==> e == if end < n then end else n
    ensures end < 0 ==> e == if n + end < 0 then 0 else n + end
  {
    if end < 0 then (if n + end < 0 then 0 else n + end)
    else if end < n then end else n
  }

  /** `Math.round(q * 0.7)` for a quantised channel: the nearest integer to
      `0.7 q`, which is never a tie for these values. */
  function Darken(q: int): (d: int)
    requires q % 32 == 0 && 0 <= q <= 256
    ensures 10 * d - 5 < 7 * q < 10 * d + 5
    ensures d in {0, 22, 45, 67, 90, 112, 134, 157, 179}
  {
    assert q == 0 || q == 32 || q == 64 || q == 96 || q == 128 || q == 160 || q == 192 || q == 224 || q == 256;
    (7 * q + 5) / 10
  }

  /** `rgb(r, g, b)` of the darkened colour. */
  function RgbString(c: Rgb): (s: string)
    requires Quantised(c)
    ensures |s| > 0 && s[0] == 'r'
  {
    "rgb(" + Dec(Darken(c.r)) + ", " + Dec(Darken(c.g)) + ", " + Dec(Darken(c.b)) + ")"
  }

  /** `.sort(...).slice(0, colorCount).map(...)`: the strings of the top entries. */
  function TopColors(h: seq<Entry>, colorCount: int): (cs: seq<string>)
    requires forall i :: 0 <= i < |h| ==> Quantised(h[i].color)
    ensures |cs| == SliceEnd(|h|, colorCount)
    ensures forall i :: 0 <= i < |cs| ==> Quantised(Ranked(h)[i].color) && cs[i] == RgbString(Ranked(h)[i].color)
  {
    var ranked := Ranked(h);
    SortPermutes(h, MoreFrequent);
    assert forall i :: 0 <= i < |ranked| ==> ranked[i] in multiset(h);
    var top := ranked[..SliceEnd(|h|, colorCount)];
    seq(|top|, i requires 0 <= i < |top| => RgbString(top[i].color))
  }

  /** The palette for an image's bytes: the fallback when nothing is picked,
      otherwise the picked colours, most frequent first, then black. */
  method ExtractPalette(pixels: array<Byte>, colorCount: int) returns (colors: seq<string>)
    requires pixels.Length % 4 == 0
    ensures var h := Tally(Keys(pixels[..]));
      && (SliceEnd(|h|, colorCount) == 0 ==> colors == Fallback)
      && (SliceEnd(|h|, colorCount) > 0 ==>
            && |colors| == SliceEnd(|h|, colorCount) + 1
            && colors[|colors| - 1] == "#000"
            && forall i :: 0 <= i < |colors| - 1 ==> Quantised(Ranked(h)[i].color) && colors[i] == RgbString(Ranked(h)[i].color))
    ensures Keys(pixels[..]) == [] ==> colors == Fallback
  {
    var colorMap := ColorHistogram(pixels);
    TallyIsHistogram(Keys(pixels[..]));
    HistogramEntries(Keys(pixels[..]));
    KeysQuantised(pixels[..], SampleEnd(pixels.Length));
    var sortedColors := TopColors(colorMap, colorCount);
    if |sortedColors| == 0 {
      colors := Fallback;
    } else {
      sortedColors := sortedColors + ["#000"];
      colors := sortedColors;
    }
  }

  /** A non-fallback palette is never the fallback: its first colour is an `rgb(...)`. */
  lemma PaletteIsNotFallback(h: seq<Entry>, colorCount: int)
    requires forall i :: 0 <= i < |h| ==> Quantised(h[i].color)
    requires SliceEnd(|h|, colorCount) > 0
    ensures TopColors(h, colorCount) + ["#000"] != Fallback
  {
    var cs := TopColors(h, colorCount) + ["#000"];
    assert cs[0][0] == 'r';
    assert Fallback[0][0] == '#';
  }

  /** For a non-negative `colorCount` the palette has `min(colorCount, #keys)`
      colours before the black; `colorCount` 0 gives the fallback. */
  lemma SliceIsMin(n: nat, colorCount: int)
    requires colorCount >= 0
    ensures SliceEnd(n, colorCount) == if colorCount < n then colorCount else n
    ensures colorCount == 0 ==> SliceEnd(n, colorCount) == 0
  {
  }

  /** A channel of 240 and above quantises to 256, beyond the byte range. */
  lemma QuantizeReaches256()
    ensures Quantize(240) == 256 && Quantize(255) == 256 && Quantize(239) == 224
  {
  }

  const GradientHead: string := "radial-gradient" + "(circle, "

  /** `createGradientString(colors)`. */
  function CreateGradientString(colors: seq<string>): string {
    GradientHead + Join(colors, ", ") + ")"
  }

  /** The gradient is as long as its head, the colours with a ", " between
      each two, and the closing parenthesis. */
  lemma GradientLength(colors: seq<string>)
    ensures |CreateGradientString(colors)| ==
      |GradientHead| + TotalLength(colors) + (if colors == [] then 0 else (|colors| - 1) * 2) + 1
  {
    JoinLength(colors, ", ");
  }

  /** Appending a colour to a non-empty list makes it the gradient's last stop. */
  lemma GradientLastStop(colors: seq<string>, last: string)
    requires colors != []
    ensures CreateGradientString(colors + [last]) == GradientHead + Join(colors, ", ") + ", " + last + ")"
  {
    JoinSnoc(colors, last, ", ");
    Regroup(GradientHead, Join(colors, ", "), ", ", last, ")");
  }

  lemma Regroup(head: string, joined: string, sep: string, last: string, close: string)
    ensures head + (joined + sep + last) + close == head + joined + sep + last + close
  {
  }
}

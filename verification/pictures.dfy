/**
 Pictures of either repository, the remote media-item records they are made
 from, and the two filters the repositories apply: the exclusion of
 non-images and composite creations, and the half-open date window.
 */
module Pictures {
  import opened DateTimes

  /** The fields of a remote media item the core reads. */
  datatype MediaItem = MediaItem(id: string, mimeType: string, filename: string, creationTime: string)

  /** A picture with its (memoised) capture date. */
  datatype Picture =
    | GooglePhoto(item: MediaItem, date: DateTime)
    | FilePicture(path: string, date: DateTime)

  /** Markers in a filename that identify a synthetic multi-shot creation. */
  const ExcludedMarkers: seq<string> := ["PANO", "PHOTOSPHERE", "POP_OUT", "COLLAGE"]

  predicate StartsWith(s: string, prefix: string) {
    |prefix| <= |s| && s[..|prefix|] == prefix
  }

  predicate EndsWith(s: string, suffix: string) {
    |suffix| <= |s| && s[|s| - |suffix|..] == suffix
  }

  predicate OccursAt(s: string, sub: string, i: int) {
    0 <= i && i + |sub| <= |s| && s[i..i + |sub|] == sub
  }

  /** Python's `sub in s` on strings. */
  predicate Contains(s: string, sub: string) {
    exists i :: 0 <= i <= |s| - |sub| && OccursAt(s, sub, i)
  }

  /** The per-item test of the remote fetch: an image that is not a composite. */
  predicate Keep(item: MediaItem) {
    && StartsWith(item.mimeType, "image")
    && forall k :: 0 <= k < |ExcludedMarkers| ==> !Contains(item.filename, ExcludedMarkers[k])
  }

  /** The items of a batch that survive the exclusion filter, in batch order. */
  function Kept(items: seq<MediaItem>): seq<MediaItem> {
    if |items| == 0 then []
    else Kept(items[..|items| - 1]) + (if Keep(items[|items| - 1]) then [items[|items| - 1]] else [])
  }

  /** An item survives the filter exactly when it is in the batch and passes the test. */
  lemma {:induction false} KeptMembers(items: seq<MediaItem>)
    ensures |Kept(items)| <= |items|
    ensures forall x :: x in Kept(items) <==> x in items && Keep(x)
  {
    if |items| > 0 {
      var init := items[..|items| - 1];
      KeptMembers(init);
      assert items == init + [items[|items| - 1]];
    }
  }

  /** Filtering a concatenation filters each part and keeps their order. */
  lemma {:induction false} KeptAppend(a: seq<MediaItem>, b: seq<MediaItem>)
    ensures Kept(a + b) == Kept(a) + Kept(b)
    decreases |b|
  {
    if |b| > 0 {
      var b' := b[..|b| - 1];
      assert (a + b)[..|a + b| - 1] == a + b';
      KeptAppend(a, b');
    } else {
      assert a + b == a;
    }
  }

  /** The pictures whose date lies in `[lo, hi)`, in their original order. */
  function InWindow(ps: seq<Picture>, lo: DateTime, hi: DateTime): (r: seq<Picture>)
    ensures |r| <= |ps|
    ensures forall p :: p in r <==> p in ps && InRange(p.date, lo, hi)
  {
    if |ps| == 0 then []
    else
      var last := ps[|ps| - 1];
      InWindow(ps[..|ps| - 1], lo, hi) + (if InRange(last.date, lo, hi) then [last] else [])
  }

  /** The window filter keeps order across a concatenation. */
  lemma {:induction false} InWindowAppend(a: seq<Picture>, b: seq<Picture>, lo: DateTime, hi: DateTime)
    ensures InWindow(a + b, lo, hi) == InWindow(a, lo, hi) + InWindow(b, lo, hi)
    decreases |b|
  {
    if |b| > 0 {
      var b' := b[..|b| - 1];
      assert (a + b)[..|a + b| - 1] == a + b';
      InWindowAppend(a, b', lo, hi);
    } else {
      assert a + b == a;
    }
  }

  /** Filtering twice by the same window changes nothing. */
  lemma {:induction false} InWindowIdempotent(ps: seq<Picture>, lo: DateTime, hi: DateTime)
    ensures InWindow(InWindow(ps, lo, hi), lo, hi) == InWindow(ps, lo, hi)
  {
    if |ps| > 0 {
      var init, last := ps[..|ps| - 1], ps[|ps| - 1];
      InWindowIdempotent(init, lo, hi);
      var tail := if InRange(last.date, lo, hi) then [last] else [];
      InWindowAppend(InWindow(init, lo, hi), tail, lo, hi);
      assert InWindow(tail, lo, hi) == tail by {
        if |tail| == 1 {
          assert tail[..0] == [];
        }
      }
    }
  }

  /** The window filter keeps every copy of a picture inside the window and no copy of one outside it. */
  lemma {:induction false} InWindowCounts(ps: seq<Picture>, lo: DateTime, hi: DateTime, p: Picture)
    ensures multiset(InWindow(ps, lo, hi))[p] == if InRange(p.date, lo, hi) then multiset(ps)[p] else 0
  {
    if |ps| > 0 {
      var init, last := ps[..|ps| - 1], ps[|ps| - 1];
      InWindowCounts(init, lo, hi, p);
      var tail := if InRange(last.date, lo, hi) then [last] else [];
      assert ps == init + [last];
      assert multiset(ps) == multiset(init) + multiset{last};
      assert multiset(InWindow(ps, lo, hi)) == multiset(InWindow(init, lo, hi)) + multiset(tail);
    }
  }
}

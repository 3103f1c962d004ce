/** The metrics reader: a filtered walk of the registry behind a time-to-live cache. */
module MetricsCache {
  import opened Common

  type Time = int
  type Labels = map<string, string>
  /** A dictionary argument: its items in insertion order, no key twice. */
  type Tags = seq<(string, string)>

  datatype Sample = Sample(name: string, labels: Labels, value: real)
  datatype Family = Family(name: string, kind: string, samples: seq<Sample>)
  datatype MetricKind = Counter | Gauge | Histogram | Summary | Untyped
  datatype Snapshot = Snapshot(name: string, tags: Labels, kind: MetricKind, value: real, timestamp: Time)

  datatype Key = Key(name: string, tags: set<(string, string)>)
  datatype Entry = Entry(samples: seq<Snapshot>, at: Time)

  function Classify(kind: string): MetricKind {
    if kind == "counter" then Counter
    else if kind == "gauge" then Gauge
    else if kind == "histogram" then Histogram
    else if kind == "summary" then Summary
    else Untyped
  }

  /** Four kinds keep their name, every other is untyped. */
  lemma ClassifyExactly(kind: string)
    ensures Classify("counter") == Counter && Classify("gauge") == Gauge
    ensures Classify("histogram") == Histogram && Classify("summary") == Summary
    ensures Classify(kind) == Untyped <==> kind !in {"counter", "gauge", "histogram", "summary"}
  {
  }

  predicate OccursAt(s: string, part: string, i: nat) {
    i + |part| <= |s| && s[i..i + |part|] == part
  }

  predicate Contains(s: string, part: string) {
    exists i :: 0 <= i <= |s| && OccursAt(s, part, i)
  }

  /** A name matches when the filter stands anywhere in it. */
  lemma ContainsExactly(s: string, part: string)
    ensures Contains(s, part) <==> exists before, after :: s == before + part + after
  {
    if Contains(s, part) {
      var i :| 0 <= i <= |s| && OccursAt(s, part, i);
      assert s == s[..i] + part + s[i + |part|..];
    }
    if before, after :| s == before + part + after {
      assert OccursAt(s, part, |before|);
    }
  }

  predicate NameMatches(filter: Option<string>, name: string) {
    filter.Some? ==> Contains(name, filter.value)
  }

  predicate MatchesTags(labels: Labels, tags: Tags) {
    forall t :: t in tags ==> t.0 in labels && labels[t.0] == t.1
  }

  /** `tags_filter or {}`. */
  function TagsOf(tags: Option<Tags>): Tags {
    match tags case Some(items) => items case None => []
  }

  function CacheKey(name: Option<string>, tags: Option<Tags>): Key {
    Key(match name case Some(n) => n case None => "", set t | t in TagsOf(tags))
  }

  ghost predicate Dict(tags: Option<Tags>) {
    forall i, j :: 0 <= i < j < |TagsOf(tags)| ==> TagsOf(tags)[i].0 != TagsOf(tags)[j].0
  }

  /** What the filters ask: the name anywhere in the family's, and every tag with its value; absent means nothing. */
  lemma FiltersExactly(filter: Option<string>, name: string, tags: Option<Tags>, labels: Labels)
    ensures NameMatches(None, name) && NameMatches(Some(""), name)
    ensures filter.Some? ==>
              (NameMatches(filter, name) <==> exists before, after :: name == before + filter.value + after)
    ensures tags.None? ==> MatchesTags(labels, TagsOf(tags))
    ensures tags.Some? ==>
              (MatchesTags(labels, TagsOf(tags)) <==>
               forall i :: 0 <= i < |tags.value| ==>
                 tags.value[i].0 in labels && labels[tags.value[i].0] == tags.value[i].1)
  {
    ContainsItself(name, "");
    if filter.Some? {
      ContainsExactly(name, filter.value);
    }
    if tags.Some? && forall i :: 0 <= i < |tags.value| ==>
         tags.value[i].0 in labels && labels[tags.value[i].0] == tags.value[i].1 {
      forall t | t in tags.value ensures t.0 in labels && labels[t.0] == t.1 {
        var i :| 0 <= i < |tags.value| && tags.value[i] == t;
      }
    }
  }

  // ---------------------------------------------------------------- collection

  function CollectSamples(samples: seq<Sample>, kind: MetricKind, tags: Tags, now: Time): seq<Snapshot> {
    if samples == [] then []
    else
      var last := samples[|samples| - 1];
      CollectSamples(samples[..|samples| - 1], kind, tags, now)
      + (if MatchesTags(last.labels, tags) then [Snapshot(last.name, last.labels, kind, last.value, now)] else [])
  }

  function Collect(registry: seq<Family>, name: Option<string>, tags: Tags, now: Time): seq<Snapshot> {
    if registry == [] then []
    else
      var last := registry[|registry| - 1];
      Collect(registry[..|registry| - 1], name, tags, now)
      + (if NameMatches(name, last.name) then CollectSamples(last.samples, Classify(last.kind), tags, now) else [])
  }

  /** Family `f` has a sample that the filters let through as `x`. */
  ghost predicate Yields(f: Family, name: Option<string>, tags: Tags, now: Time, x: Snapshot) {
    && NameMatches(name, f.name)
    && exists s :: s in f.samples && MatchesTags(s.labels, tags)
                   && x == Snapshot(s.name, s.labels, Classify(f.kind), s.value, now)
  }

  lemma {:induction false} SamplesCollected(samples: seq<Sample>, kind: MetricKind, tags: Tags, now: Time, x: Snapshot)
    ensures x in CollectSamples(samples, kind, tags, now) <==>
              exists s :: s in samples && MatchesTags(s.labels, tags)
                          && x == Snapshot(s.name, s.labels, kind, s.value, now)
  {
    if samples != [] {
      var init, last := samples[..|samples| - 1], samples[|samples| - 1];
      SamplesCollected(init, kind, tags, now, x);
      assert samples == init + [last];
      assert forall s :: s in samples <==> s in init || s == last;
    }
  }

  function CollectFamily(f: Family, name: Option<string>, tags: Tags, now: Time): seq<Snapshot> {
    if NameMatches(name, f.name) then CollectSamples(f.samples, Classify(f.kind), tags, now) else []
  }

  /** A collection holds exactly the matching samples of the families whose name matches. */
  lemma {:induction false} CollectedExactly(
    registry: seq<Family>, name: Option<string>, tags: Tags, now: Time, x: Snapshot)
    ensures x in Collect(registry, name, tags, now) <==>
              exists f :: f in registry && Yields(f, name, tags, now, x)
  {
    if registry != [] {
      var init, last := registry[..|registry| - 1], registry[|registry| - 1];
      CollectedExactly(init, name, tags, now, x);
      assert x in CollectFamily(last, name, tags, now) <==> Yields(last, name, tags, now, x) by {
        SamplesCollected(last.samples, Classify(last.kind), tags, now, x);
      }
      assert Collect(registry, name, tags, now)
          == Collect(init, name, tags, now) + CollectFamily(last, name, tags, now);
      assert forall f :: f in registry <==> f in init || f == last by {
        assert registry == init + [last];
      }
    }
  }

  class MetricsRegistryReader {
    const ttl: int
    const maxsize: nat
    var cache: map<Key, Entry>
    /** The registry as it is at each instant; the reader sees it only when it collects. */
    ghost const world: Time -> seq<Family>

    /** Every entry is what a collection for any filters of its key gave when it was made. */
    ghost predicate Valid(now: Time)
      reads this
    {
      && maxsize > 0 && |cache| <= maxsize
      && forall key :: key in cache ==>
           && cache[key].at <= now
           && forall name, tags :: Dict(tags) && CacheKey(name, tags) == key ==>
                cache[key].samples == Collect(world(cache[key].at), name, TagsOf(tags), cache[key].at)
    }

    constructor (ttl: int, maxsize: nat, ghost world: Time -> seq<Family>)
      requires maxsize > 0
      ensures forall now :: Valid(now)
      ensures this.ttl == ttl && this.maxsize == maxsize && this.world == world
    {
      this.ttl, this.maxsize, this.world := ttl, maxsize, world;
      cache := map[];
    }

    method ClearCache(now: Time)
      requires Valid(now)
      modifies this
      ensures Valid(now) && cache == map[]
    {
      cache := map[];
    }

    /** Any other entries may have to go to make room. */
    method Store(key: Key, entry: Entry)
      requires maxsize > 0 && |cache| <= maxsize
      modifies this
      ensures key in cache && cache[key] == entry && |cache| <= maxsize
      ensures forall k :: k in cache && k != key ==> k in old(cache) && cache[k] == old(cache)[k]
    {
      var victims: set<Key> :| victims <= cache.Keys && |cache.Keys - victims| < maxsize by {
        assert cache.Keys - cache.Keys == {};
      }
      var kept := cache - victims;
      assert kept.Keys == cache.Keys - victims;
      cache := kept[key := entry];
      assert cache.Keys == kept.Keys + {key};
    }

    method CollectNow(registry: seq<Family>, name: Option<string>, tags: Tags, now: Time)
      returns (snapshots: seq<Snapshot>)
      ensures snapshots == Collect(registry, name, tags, now)
    {
      snapshots := [];
      for i := 0 to |registry|
        invariant snapshots == Collect(registry[..i], name, tags, now)
      {
        assert registry[..i + 1][..i] == registry[..i];
        if name.None? || Contains(registry[i].name, name.value) {
          var kind, samples := Classify(registry[i].kind), registry[i].samples;
          ghost var before := snapshots;
          for j := 0 to |samples|
            invariant snapshots == before + CollectSamples(samples[..j], kind, tags, now)
          {
            assert samples[..j + 1][..j] == samples[..j];
            if MatchesTags(samples[j].labels, tags) {
              snapshots := snapshots
                + [Snapshot(samples[j].name, samples[j].labels, kind, samples[j].value, now)];
            }
          }
          assert samples[..|samples|] == samples;
        }
      }
      assert registry[..|registry|] == registry;
    }

    /**
     * Whatever was queried, cleared or evicted before, the answer is what a collection for these
     * very filters would have given at some instant not longer ago than the time to live.
     */
    method ListSamples(registry: seq<Family>, name: Option<string>, tags: Option<Tags>, ghost last: Time, now: Time)
      returns (samples: seq<Snapshot>, ghost at: Time)
      requires Valid(last) && last <= now && registry == world(now) && Dict(tags)
      modifies this
      ensures Valid(now)
      ensures samples == Collect(world(at), name, TagsOf(tags), at)
      ensures at == now || at <= now < at + ttl
      ensures var key := CacheKey(name, tags);
              if key in old(cache) && now < old(cache)[key].at + ttl
              then cache == old(cache) && samples == cache[key].samples && at == cache[key].at
              else at == now && key in cache && cache[key] == Entry(samples, now)
                   && forall k :: k in cache && k != key ==> k in old(cache) && cache[k] == old(cache)[k]
    {
      var key := CacheKey(name, tags);
      if key in cache && now < cache[key].at + ttl {
        return cache[key].samples, cache[key].at;
      }
      samples := CollectNow(registry, name, TagsOf(tags), now);
      at := now;
      forall n, t | Dict(t) && CacheKey(n, t) == key
        ensures samples == Collect(world(now), n, TagsOf(t), now)
      {
        EqualKeysCollectAlike(registry, n, t, name, tags, now);
      }
      Store(key, Entry(samples, now));
    }
  }

  // ---------------------------------------------------------------- the key

  lemma {:induction false} SamplesAlike(samples: seq<Sample>, kind: MetricKind, a: Tags, b: Tags, now: Time)
    requires forall t :: t in a <==> t in b
    ensures CollectSamples(samples, kind, a, now) == CollectSamples(samples, kind, b, now)
  {
    if samples != [] {
      SamplesAlike(samples[..|samples| - 1], kind, a, b, now);
    }
  }

  /** Filters with equal keys (absent or empty, in any order) collect the same from every registry. */
  lemma {:induction false} EqualKeysCollectAlike(
    registry: seq<Family>, n1: Option<string>, t1: Option<Tags>, n2: Option<string>, t2: Option<Tags>, now: Time)
    requires CacheKey(n1, t1) == CacheKey(n2, t2)
    ensures Collect(registry, n1, TagsOf(t1), now) == Collect(registry, n2, TagsOf(t2), now)
  {
    if registry != [] {
      var last := registry[|registry| - 1];
      EqualKeysCollectAlike(registry[..|registry| - 1], n1, t1, n2, t2, now);
      assert forall t :: t in TagsOf(t1) <==> t in CacheKey(n1, t1).tags;
      SamplesAlike(last.samples, Classify(last.kind), TagsOf(t1), TagsOf(t2), now);
      ContainsItself(last.name, "");
    }
  }

  function LabelsOf(tags: Tags): Labels {
    if tags == [] then map[] else LabelsOf(tags[1..])[tags[0].0 := tags[0].1]
  }

  lemma {:induction false} LabelsOfDict(tags: Tags, t: (string, string))
    requires forall i, j :: 0 <= i < j < |tags| ==> tags[i].0 != tags[j].0
    ensures t in tags <==> t.0 in LabelsOf(tags) && LabelsOf(tags)[t.0] == t.1
    ensures t.0 in LabelsOf(tags) <==> exists i :: 0 <= i < |tags| && tags[i].0 == t.0
  {
    if tags != [] {
      LabelsOfDict(tags[1..], t);
      assert forall i :: 1 <= i < |tags| ==> tags[i] == tags[1..][i - 1];
      assert tags == [tags[0]] + tags[1..];
    }
  }

  /** A registry of one family with one sample: a probe of one name and one label set. */
  function Probe(name: string, labels: Labels): seq<Family> {
    [Family(name, "gauge", [Sample(name, labels, 0.0)])]
  }

  lemma ProbeAnswer(name: string, labels: Labels, n: Option<string>, tags: Tags)
    ensures Collect(Probe(name, labels), n, tags, 0) != [] <==> NameMatches(n, name) && MatchesTags(labels, tags)
  {
    var f := Probe(name, labels)[0];
    assert Probe(name, labels)[..0] == [] && f.samples[..0] == [];
    assert CollectSamples(f.samples, Gauge, tags, 0) != [] <==> MatchesTags(labels, tags);
  }

  lemma OwnLabelsMatch(tags: Tags, other: Tags)
    requires forall i, j :: 0 <= i < j < |tags| ==> tags[i].0 != tags[j].0
    ensures MatchesTags(LabelsOf(tags), other) <==> forall t :: t in other ==> t in tags
  {
    forall t | t in other
      ensures t in tags <==> t.0 in LabelsOf(tags) && LabelsOf(tags)[t.0] == t.1
    {
      LabelsOfDict(tags, t);
    }
  }

  lemma ContainsItself(s: string, part: string)
    ensures Contains(s, s) && Contains(s, "")
    ensures Contains(s, part) && Contains(part, s) ==> s == part
  {
    assert OccursAt(s, s, 0) && OccursAt(s, "", 0);
  }

  /**
   * The cache key is exactly as fine as it must be: two pairs of filters share a key if and only if
   * no registry tells them apart.
   */
  lemma KeyIsExact(n1: Option<string>, t1: Option<Tags>, n2: Option<string>, t2: Option<Tags>)
    requires Dict(t1) && Dict(t2)
    ensures CacheKey(n1, t1) == CacheKey(n2, t2) <==>
              forall registry, now :: Collect(registry, n1, TagsOf(t1), now) == Collect(registry, n2, TagsOf(t2), now)
  {
    if CacheKey(n1, t1) == CacheKey(n2, t2) {
      forall registry, now
        ensures Collect(registry, n1, TagsOf(t1), now) == Collect(registry, n2, TagsOf(t2), now)
      {
        EqualKeysCollectAlike(registry, n1, t1, n2, t2, now);
      }
    } else {
      var a, b := CacheKey(n1, t1).name, CacheKey(n2, t2).name;
      var l1, l2 := LabelsOf(TagsOf(t1)), LabelsOf(TagsOf(t2));
      ContainsItself(a, b);
      ContainsItself(b, a);
      OwnLabelsMatch(TagsOf(t1), TagsOf(t1));
      OwnLabelsMatch(TagsOf(t2), TagsOf(t2));
      OwnLabelsMatch(TagsOf(t1), TagsOf(t2));
      OwnLabelsMatch(TagsOf(t2), TagsOf(t1));
      ProbeAnswer(a, l1, n1, TagsOf(t1));
      ProbeAnswer(a, l1, n2, TagsOf(t2));
      ProbeAnswer(b, l2, n1, TagsOf(t1));
      ProbeAnswer(b, l2, n2, TagsOf(t2));
      assert Collect(Probe(a, l1), n1, TagsOf(t1), 0) != Collect(Probe(a, l1), n2, TagsOf(t2), 0)
          || Collect(Probe(b, l2), n1, TagsOf(t1), 0) != Collect(Probe(b, l2), n2, TagsOf(t2), 0);
    }
  }
}

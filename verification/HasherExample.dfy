/** The repository's hasher test with two samples, as a statement about every run. */
module HasherExample {
  import opened FeatureHashing
  import opened HasherRuns
  import opened Murmur32Answers

  const FIRST_ROW: seq<real> := [0.0, 0.0, -4.0, -1.0, 0.0, 0.0, 0.0, 0.0, 0.0, 2.0]
  const SECOND_ROW: seq<real> := [0.0, 0.0, 0.0, -2.0, -5.0, 0.0, 0.0, 0.0, 0.0, 0.0]

  function TestScript(dog: Name, cat: Name, elephant: Name, run: Name): Script {
    [Push(dog, 1.0), Push(cat, 2.0), Push(elephant, 4.0), EndSample, Push(dog, 2.0), Push(run, 5.0), EndSample]
  }

  function First(dog: Name, cat: Name, elephant: Name): seq<Feature> {
    [Feature(dog, 1.0), Feature(cat, 2.0), Feature(elephant, 4.0)]
  }

  function Second(dog: Name, run: Name): seq<Feature> {
    [Feature(dog, 2.0), Feature(run, 5.0)]
  }

  // ---------- the samples of the script

  lemma ScriptStep(before: Script, last: Command)
    ensures Closed(before + [last]) == if last.EndSample? then Closed(before) + [Open(before)] else Closed(before)
    ensures last.Push? ==> Open(before + [last]) == Open(before) + [Feature(CString(last.name), last.value)]
    ensures last.EndSample? ==> Open(before + [last]) == []
  {
    assert (before + [last])[..|before|] == before;
  }

  lemma FirstPart(dog: Name, cat: Name, elephant: Name)
    requires CString(dog) == dog && CString(cat) == cat && CString(elephant) == elephant
    ensures var part: Script := [Push(dog, 1.0), Push(cat, 2.0), Push(elephant, 4.0), EndSample];
            Closed(part) == [First(dog, cat, elephant)] && Open(part) == []
  {
    var s1: Script := [] + [Push(dog, 1.0)];
    var s2 := s1 + [Push(cat, 2.0)];
    var s3 := s2 + [Push(elephant, 4.0)];
    ScriptStep([], Push(dog, 1.0));
    ScriptStep(s1, Push(cat, 2.0));
    ScriptStep(s2, Push(elephant, 4.0));
    ScriptStep(s3, EndSample);
    assert s3 + [EndSample] == [Push(dog, 1.0), Push(cat, 2.0), Push(elephant, 4.0), EndSample];
    assert Closed(s3) == [] && Open(s3) == First(dog, cat, elephant);
  }

  lemma SecondPart(part: Script, dog: Name, run: Name)
    requires CString(dog) == dog && CString(run) == run && Open(part) == []
    ensures Closed(part + [Push(dog, 2.0), Push(run, 5.0), EndSample]) == Closed(part) + [Second(dog, run)]
  {
    var s1 := part + [Push(dog, 2.0)];
    var s2 := s1 + [Push(run, 5.0)];
    ScriptStep(part, Push(dog, 2.0));
    ScriptStep(s1, Push(run, 5.0));
    ScriptStep(s2, EndSample);
    assert s2 + [EndSample] == part + [Push(dog, 2.0), Push(run, 5.0), EndSample];
    assert Open(s2) == Second(dog, run);
  }

  lemma ScriptSamples(dog: Name, cat: Name, elephant: Name, run: Name)
    requires CString(dog) == dog && CString(cat) == cat && CString(elephant) == elephant && CString(run) == run
    ensures Closed(TestScript(dog, cat, elephant, run)) == [First(dog, cat, elephant), Second(dog, run)]
  {
    var part: Script := [Push(dog, 1.0), Push(cat, 2.0), Push(elephant, 4.0), EndSample];
    FirstPart(dog, cat, elephant);
    SecondPart(part, dog, run);
    assert part + [Push(dog, 2.0), Push(run, 5.0), EndSample] == TestScript(dog, cat, elephant, run);
  }

  // ---------- their bucket totals

  /** The bucket of a name, and whether its values change their sign. */
  ghost predicate Lands(cfg: Config, name: Name, bucket: nat, negative: bool) {
    && cfg.size == 10 && cfg.alternateSign
    && Abs(cfg.hash(name)) % 10 == bucket && (cfg.hash(name) < 0 <==> negative)
  }

  lemma SumSnoc(cfg: Config, before: seq<Feature>, f: Feature, bucket: nat, negative: bool, c: nat)
    requires Lands(cfg, f.name, bucket, negative)
    ensures BucketSum(cfg, before + [f], c)
         == BucketSum(cfg, before, c) + (if bucket != c then 0.0 else if negative then -f.value else f.value)
  {
    assert (before + [f])[..|before|] == before;
  }

  lemma FirstSum(cfg: Config, dog: Name, cat: Name, elephant: Name, c: nat)
    requires Lands(cfg, dog, 3, true) && Lands(cfg, cat, 9, false) && Lands(cfg, elephant, 2, true) && c < 10
    ensures BucketSum(cfg, First(dog, cat, elephant), c) == FIRST_ROW[c]
  {
    var s1 := [] + [Feature(dog, 1.0)];
    var s2 := s1 + [Feature(cat, 2.0)];
    SumSnoc(cfg, [], Feature(dog, 1.0), 3, true, c);
    SumSnoc(cfg, s1, Feature(cat, 2.0), 9, false, c);
    SumSnoc(cfg, s2, Feature(elephant, 4.0), 2, true, c);
    assert s2 + [Feature(elephant, 4.0)] == First(dog, cat, elephant);
  }

  lemma SecondSum(cfg: Config, dog: Name, run: Name, c: nat)
    requires Lands(cfg, dog, 3, true) && Lands(cfg, run, 4, true) && c < 10
    ensures BucketSum(cfg, Second(dog, run), c) == SECOND_ROW[c]
  {
    var s1 := [] + [Feature(dog, 2.0)];
    SumSnoc(cfg, [], Feature(dog, 2.0), 3, true, c);
    SumSnoc(cfg, s1, Feature(run, 5.0), 4, true, c);
    assert s1 + [Feature(run, 5.0)] == Second(dog, run);
  }

  lemma TwoRows(before: seq<real>, after: seq<real>, base: nat, cfg: Config, first: seq<Feature>, second: seq<Feature>)
    requires cfg.size == 10 && Wrote(before, after, base, cfg, [first, second])
    requires forall c :: 0 <= c < 10 ==> BucketSum(cfg, first, c) == FIRST_ROW[c]
    requires forall c :: 0 <= c < 10 ==> BucketSum(cfg, second, c) == SECOND_ROW[c]
    ensures base + 20 <= |before| && after == before[..base] + (FIRST_ROW + SECOND_ROW) + before[base + 20..]
  {
    var samples := [first, second];
    var rows := Buckets(cfg, samples);
    BucketsLength(cfg, samples);
    forall c | 0 <= c < 10 ensures rows[c] == FIRST_ROW[c] && rows[10 + c] == SECOND_ROW[c] {
      BucketsAt(cfg, samples, 0, c);
      BucketsAt(cfg, samples, 1, c);
    }
    assert rows == FIRST_ROW + SECOND_ROW;
  }

  // ---------- under MurmurHash3

  lemma SignedDigest(cfg: Config, name: Name, u: bv32, v: nat)
    requires cfg.size == 10 && cfg.alternateSign && cfg.hash(name) == AsInt32(u)
    requires u as int == v
    ensures var h := if v < 0x8000_0000 then v else v - 0x1_0000_0000;
            Lands(cfg, name, Abs(h) % 10, h < 0)
  {}

  lemma WholeNames()
    ensures CString(DOG) == DOG && CString(CAT) == CAT && CString(RUN) == RUN && CString(ELEPHANT) == ELEPHANT
  {
    CStringWhole(DOG);
    CStringWhole(CAT);
    CStringWhole(RUN);
    CStringWhole(ELEPHANT);
  }

  lemma NamesLand(cfg: Config)
    requires cfg.size == 10 && cfg.alternateSign
    requires cfg.hash(DOG) == AsInt32(0xb1c109db) && cfg.hash(CAT) == AsInt32(0x68649727)
    requires cfg.hash(ELEPHANT) == AsInt32(0xc0a151d2) && cfg.hash(RUN) == AsInt32(0xf1764c48)
    ensures Lands(cfg, DOG, 3, true) && Lands(cfg, CAT, 9, false)
    ensures Lands(cfg, ELEPHANT, 2, true) && Lands(cfg, RUN, 4, true)
  {
    SignedDigest(cfg, DOG, 0xb1c109db, 0xb1c109db);
    SignedDigest(cfg, CAT, 0x68649727, 0x68649727);
    SignedDigest(cfg, ELEPHANT, 0xc0a151d2, 0xc0a151d2);
    SignedDigest(cfg, RUN, 0xf1764c48, 0xf1764c48);
  }

  lemma Digests(cfg: Config)
    requires cfg == MurmurConfig(10, true, 0)
    ensures cfg.hash(DOG) == AsInt32(0xb1c109db) && cfg.hash(CAT) == AsInt32(0x68649727)
    ensures cfg.hash(ELEPHANT) == AsInt32(0xc0a151d2) && cfg.hash(RUN) == AsInt32(0xf1764c48)
  {
    Dog();
    Cat();
    Elephant();
    Run();
  }

  /** Whatever the output held: after a run of this script with ten buckets, alternating
      signs and several samples, it has the two rows that the test expects, and no other
      cell has changed. */
  lemma ExpectedOutput(before: seq<real>, after: seq<real>, base: nat, cfg: Config)
    requires cfg == MurmurConfig(10, true, 0)
    requires Wrote(before, after, base, cfg, Written(TestScript(DOG, CAT, ELEPHANT, RUN), true))
    ensures base + 20 <= |before| && after == before[..base] + (FIRST_ROW + SECOND_ROW) + before[base + 20..]
  {
    WholeNames();
    ScriptSamples(DOG, CAT, ELEPHANT, RUN);
    Digests(cfg);
    NamesLand(cfg);
    forall c | 0 <= c < 10
      ensures BucketSum(cfg, First(DOG, CAT, ELEPHANT), c) == FIRST_ROW[c]
      ensures BucketSum(cfg, Second(DOG, RUN), c) == SECOND_ROW[c]
    {
      FirstSum(cfg, DOG, CAT, ELEPHANT, c);
      SecondSum(cfg, DOG, RUN, c);
    }
    TwoRows(before, after, base, cfg, First(DOG, CAT, ELEPHANT), Second(DOG, RUN));
  }
}

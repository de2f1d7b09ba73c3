/** `shard` of `ci/build-test-matrix.js`: the workspace's crates divided into buckets, and each test
    configuration turned into one job per bucket.  A job runs `cargo test --workspace`, so it names
    every member of the workspace, to be tested or to be excluded. */
module Shard {

  const GENERIC_BUCKETS: nat := 3

  datatype Sub = Sub(name: string, args: string)

  /** An entry of `SINGLE_CRATE_BUCKETS`. */
  datatype Entry = Single(crate: string) | Split(crate: string, subs: seq<Sub>)

  datatype Bucket = Group(crates: set<string>) | SubBucket(crate: string, sub: Sub)

  datatype Flag = Package(crate: string) | Exclude(crate: string)

  /** The `crates` key of a configuration: absent, a string, or an array. */
  datatype Restriction = Unrestricted | Only(crate: string) | Each(crates: seq<string>)

  datatype Config = Config(id: nat, crates: Restriction)

  datatype Job = Job(id: nat, flags: seq<Flag>, args: string)

  // ----- the specification

  predicate Has(b: Bucket, c: string) {
    match b
    case Group(crates) => c in crates
    case SubBucket(crate, _) => c == crate
  }

  function SingleNames(entries: seq<Entry>): set<string> {
    set e | e in entries :: e.crate
  }

  /** The members that have no bucket of their own, in order. */
  function Rest(members: seq<string>, singles: set<string>): (r: seq<string>) {
    if members == [] then []
    else
      var n := |members| - 1;
      Rest(members[..n], singles) + if members[n] in singles then [] else [members[n]]
  }

  /** Every third crate, from the `k`th. */
  function EveryThird(rest: seq<string>, k: nat): (g: set<string>) {
    set i | 0 <= i < |rest| && i % GENERIC_BUCKETS == k :: rest[i]
  }

  function EntryBuckets(e: Entry): seq<Bucket> {
    match e
    case Single(crate) => [Group({crate})]
    case Split(crate, subs) => seq(|subs|, i requires 0 <= i < |subs| => SubBucket(crate, subs[i]))
  }

  function AllEntryBuckets(entries: seq<Entry>): seq<Bucket> {
    if entries == [] then []
    else AllEntryBuckets(entries[..|entries| - 1]) + EntryBuckets(entries[|entries| - 1])
  }

  function GenericBuckets(rest: seq<string>): (bs: seq<Bucket>)
    ensures |bs| == GENERIC_BUCKETS
  {
    [Group(EveryThird(rest, 0)), Group(EveryThird(rest, 1)), Group(EveryThird(rest, 2))]
  }

  function Buckets(members: seq<string>, entries: seq<Entry>): seq<Bucket> {
    GenericBuckets(Rest(members, SingleNames(entries))) + AllEntryBuckets(entries)
  }

  function FlagFor(b: Bucket, c: string): (f: Flag)
    ensures f.crate == c
  {
    if Has(b, c) then Package(c) else Exclude(c)
  }

  function JobFor(config: Config, members: seq<string>, b: Bucket): (j: Job)
    ensures |j.flags| == |members|
    ensures forall i | 0 <= i < |members| :: j.flags[i] == FlagFor(b, members[i])
  {
    Job(config.id,
        seq(|members|, i requires 0 <= i < |members| => FlagFor(b, members[i])),
        if b.SubBucket? then b.sub.args else "")
  }

  /** The buckets of a configuration.  A restriction that is the empty string counts as none. */
  function BucketsOf(config: Config, buckets: seq<Bucket>): seq<Bucket> {
    match config.crates
    case Unrestricted => buckets
    case Only(crate) => if crate == "" then buckets else [Group({crate})]
    case Each(crates) => seq(|crates|, i requires 0 <= i < |crates| => Group({crates[i]}))
  }

  function JobsOf(config: Config, members: seq<string>, buckets: seq<Bucket>): (js: seq<Job>)
    ensures |js| == |BucketsOf(config, buckets)|
  {
    var bs := BucketsOf(config, buckets);
    seq(|bs|, i requires 0 <= i < |bs| => JobFor(config, members, bs[i]))
  }

  function AllJobs(configs: seq<Config>, members: seq<string>, buckets: seq<Bucket>): seq<Job> {
    if configs == [] then []
    else AllJobs(configs[..|configs| - 1], members, buckets) + JobsOf(configs[|configs| - 1], members, buckets)
  }

  // ----- the code

  method FillGeneric(members: seq<string>, singles: set<string>) returns (buckets: seq<Bucket>)
    ensures buckets == GenericBuckets(Rest(members, singles))
  {
    buckets := [Group({}), Group({}), Group({})];
    var i := 0;
    assert forall k :: EveryThird([], k) == {};
    for n := 0 to |members|
      invariant buckets == GenericBuckets(Rest(members[..n], singles))
      invariant i == |Rest(members[..n], singles)| % GENERIC_BUCKETS
    {
      assert members[..n + 1][..n] == members[..n];
      var crate := members[n];
      assert Rest(members[..n + 1], singles) == Rest(members[..n], singles) + if crate in singles then [] else [crate];
      if crate in singles {
        assert Rest(members[..n + 1], singles) == Rest(members[..n], singles);
        continue;
      }
      AddThird(Rest(members[..n], singles), crate);
      buckets := buckets[i := Group(buckets[i].crates + {crate})];
      i := (i + 1) % GENERIC_BUCKETS;
    }
    assert members[..|members|] == members;
  }

  lemma AddThirdAt(rest: seq<string>, c: string, k: nat)
    ensures EveryThird(rest + [c], k) ==
            if k == |rest| % GENERIC_BUCKETS then EveryThird(rest, k) + {c} else EveryThird(rest, k)
  {
    var longer := rest + [c];
    assert longer[|rest|] == c;
    forall x | x in EveryThird(rest, k)
      ensures x in EveryThird(longer, k)
    {
      var i :| 0 <= i < |rest| && i % GENERIC_BUCKETS == k && rest[i] == x;
      assert longer[i] == x;
    }
  }

  lemma AddThird(rest: seq<string>, c: string)
    ensures GenericBuckets(rest + [c]) ==
            GenericBuckets(rest)[|rest| % GENERIC_BUCKETS := Group(EveryThird(rest, |rest| % GENERIC_BUCKETS) + {c})]
  {
    AddThirdAt(rest, c, 0);
    AddThirdAt(rest, c, 1);
    AddThirdAt(rest, c, 2);
  }

  method PushEntries(buckets: seq<Bucket>, entries: seq<Entry>) returns (r: seq<Bucket>)
    ensures r == buckets + AllEntryBuckets(entries)
  {
    r := buckets;
    for n := 0 to |entries|
      invariant r == buckets + AllEntryBuckets(entries[..n])
    {
      assert entries[..n + 1][..n] == entries[..n];
      ghost var r0 := r;
      match entries[n] {
        case Single(crate) => r := r + [Group({crate})];
        case Split(crate, subs) => r := PushSubs(r, crate, subs);
      }
      assert r == r0 + EntryBuckets(entries[n]);
    }
    assert entries[..|entries|] == entries;
  }

  method PushSubs(buckets: seq<Bucket>, crate: string, subs: seq<Sub>) returns (r: seq<Bucket>)
    ensures r == buckets + EntryBuckets(Split(crate, subs))
  {
    r := buckets;
    for i := 0 to |subs|
      invariant r == buckets + EntryBuckets(Split(crate, subs))[..i]
    {
      r := r + [SubBucket(crate, subs[i])];
    }
  }

  /** The inner loops for one configuration. */
  method ExpandConfig(config: Config, members: seq<string>, buckets: seq<Bucket>) returns (js: seq<Job>)
    ensures js == JobsOf(config, members, buckets)
  {
    js := [];
    var bs := BucketsOf(config, buckets);
    for i := 0 to |bs|
      invariant js == JobsOf(config, members, buckets)[..i]
    {
      js := js + [JobFor(config, members, bs[i])];
    }
  }

  method ShardConfigs(configs: seq<Config>, members: seq<string>, entries: seq<Entry>) returns (sharded: seq<Job>)
    ensures sharded == AllJobs(configs, members, Buckets(members, entries))
  {
    var buckets := FillGeneric(members, SingleNames(entries));
    buckets := PushEntries(buckets, entries);
    sharded := [];
    for n := 0 to |configs|
      invariant sharded == AllJobs(configs[..n], members, Buckets(members, entries))
    {
      assert configs[..n + 1][..n] == configs[..n];
      var js := ExpandConfig(configs[n], members, buckets);
      sharded := sharded + js;
    }
    assert configs[..|configs|] == configs;
  }

  // ----- every crate is tested as often as it should be

  function Count(bs: seq<Bucket>, c: string): nat {
    if bs == [] then 0 else Count(bs[..|bs| - 1], c) + if Has(bs[|bs| - 1], c) then 1 else 0
  }

  lemma {:induction false} CountAppend(a: seq<Bucket>, b: seq<Bucket>, c: string)
    ensures Count(a + b, c) == Count(a, c) + Count(b, c)
    decreases |b|
  {
    if b == [] {
      assert a + b == a;
    } else {
      assert (a + b)[..|a + b| - 1] == a + b[..|b| - 1];
      CountAppend(a, b[..|b| - 1], c);
    }
  }

  /** How many buckets an entry makes for a crate. */
  function Copies(e: Entry, c: string): nat {
    if e.crate != c then 0 else if e.Single? then 1 else |e.subs|
  }

  function TotalCopies(entries: seq<Entry>, c: string): nat {
    if entries == [] then 0
    else TotalCopies(entries[..|entries| - 1], c) + Copies(entries[|entries| - 1], c)
  }

  lemma {:induction false} CountSubs(crate: string, bs: seq<Bucket>, c: string)
    requires forall b | b in bs :: b.SubBucket? && b.crate == crate
    ensures Count(bs, c) == if c == crate then |bs| else 0
  {
    if bs != [] {
      assert bs[|bs| - 1] in bs;
      CountSubs(crate, bs[..|bs| - 1], c);
    }
  }

  lemma {:induction false} CountEntries(entries: seq<Entry>, c: string)
    ensures Count(AllEntryBuckets(entries), c) == TotalCopies(entries, c)
  {
    if entries != [] {
      var n := |entries| - 1;
      CountEntries(entries[..n], c);
      CountAppend(AllEntryBuckets(entries[..n]), EntryBuckets(entries[n]), c);
      match entries[n]
      case Single(crate) =>
        assert Count([Group({crate})], c) == if c == crate then 1 else 0;
      case Split(crate, subs) =>
        CountSubs(crate, EntryBuckets(entries[n]), c);
    }
  }

  ghost predicate Distinct(s: seq<string>) {
    forall i, j | 0 <= i < j < |s| :: s[i] != s[j]
  }

  lemma {:induction false} RestOf(members: seq<string>, singles: set<string>)
    requires Distinct(members)
    ensures Distinct(Rest(members, singles))
    ensures forall c :: c in Rest(members, singles) <==> c in members && c !in singles
  {
    if members != [] {
      var n := |members| - 1;
      RestOf(members[..n], singles);
      assert members == members[..n] + [members[n]];
      assert members[n] !in members[..n];
    }
  }

  /** A crate of the rest is in exactly one generic bucket, any other in none. */
  lemma CountGeneric(rest: seq<string>, c: string)
    requires Distinct(rest)
    ensures Count(GenericBuckets(rest), c) == if c in rest then 1 else 0
  {
    var bs := GenericBuckets(rest);
    assert bs[..2][..1] == bs[..1] && bs[..1][..0] == [];
    assert Count(bs, c) == Count(bs[..2], c) + if Has(bs[2], c) then 1 else 0;
    assert Count(bs[..2], c) == Count(bs[..1], c) + if Has(bs[1], c) then 1 else 0;
    assert Count(bs[..1], c) == if Has(bs[0], c) then 1 else 0;
    if c in rest {
      var i :| 0 <= i < |rest| && rest[i] == c;
      forall k: nat
        ensures c in EveryThird(rest, k) <==> k == i % GENERIC_BUCKETS
      {
      }
    }
  }

  function Jobs(js: seq<Job>, c: string): nat {
    if js == [] then 0 else Jobs(js[..|js| - 1], c) + if Package(c) in js[|js| - 1].flags then 1 else 0
  }

  lemma {:induction false} JobsCount(config: Config, members: seq<string>, bs: seq<Bucket>, c: string, n: nat)
    requires c in members && n <= |BucketsOf(config, bs)|
    ensures Jobs(JobsOf(config, members, bs)[..n], c) == Count(BucketsOf(config, bs)[..n], c)
  {
    if n > 0 {
      JobsCount(config, members, bs, c, n - 1);
      var js, of := JobsOf(config, members, bs), BucketsOf(config, bs);
      assert js[..n][..n - 1] == js[..n - 1] && of[..n][..n - 1] == of[..n - 1];
      var i :| 0 <= i < |members| && members[i] == c;
      assert js[n - 1].flags[i] == if Has(of[n - 1], c) then Package(c) else Exclude(c);
    }
  }

  /** A restriction that is the empty string is none. */
  predicate Shards(config: Config) {
    config.crates.Unrestricted? || config.crates == Only("")
  }

  /** In a configuration that is not restricted, a member of the workspace is tested by exactly one
      job, or, if it has entries of its own, by one job for each bucket they make. */
  lemma TestedAsOften(config: Config, members: seq<string>, entries: seq<Entry>, c: string)
    requires Distinct(members) && c in members && Shards(config)
    ensures Jobs(JobsOf(config, members, Buckets(members, entries)), c) ==
            if c in SingleNames(entries) then TotalCopies(entries, c) else 1
  {
    var singles := SingleNames(entries);
    var rest := Rest(members, singles);
    var bs := Buckets(members, entries);
    var js := JobsOf(config, members, bs);
    JobsCount(config, members, bs, c, |bs|);
    assert js[..|bs|] == js && bs[..|bs|] == bs;
    RestOf(members, singles);
    CountAppend(GenericBuckets(rest), AllEntryBuckets(entries), c);
    CountGeneric(rest, c);
    CountEntries(entries, c);
    if c !in singles {
      NoCopies(entries, c);
    }
  }

  lemma {:induction false} NoCopies(entries: seq<Entry>, c: string)
    requires c !in SingleNames(entries)
    ensures TotalCopies(entries, c) == 0
  {
    if entries != [] {
      assert entries[|entries| - 1] in entries;
      NoCopies(entries[..|entries| - 1], c);
    }
  }

  /** The jobs of a configuration divide the workspace, as documented, exactly when no member is split
      into several buckets or, by an entry without any, into none. */
  lemma DividesIff(config: Config, members: seq<string>, entries: seq<Entry>)
    requires Distinct(members) && Shards(config)
    ensures (forall c | c in members :: Jobs(JobsOf(config, members, Buckets(members, entries)), c) == 1)
       <==> (forall c | c in members && c in SingleNames(entries) :: TotalCopies(entries, c) == 1)
  {
    forall c | c in members
      ensures Jobs(JobsOf(config, members, Buckets(members, entries)), c) ==
              if c in SingleNames(entries) then TotalCopies(entries, c) else 1
    {
      TestedAsOften(config, members, entries, c);
    }
  }

  // ----- what a restricted configuration tests

  /** A configuration for one crate has one job, which tests that crate alone. */
  lemma OnlyTests(config: Config, members: seq<string>, bs: seq<Bucket>, m: string)
    requires config.crates.Only? && config.crates.crate != "" && m in members
    ensures var js := JobsOf(config, members, bs);
            && |js| == 1 && js[0].args == ""
            && (Package(m) in js[0].flags <==> m == config.crates.crate)
            && (Exclude(m) in js[0].flags <==> m != config.crates.crate)
  {
    var i :| 0 <= i < |members| && members[i] == m;
    assert JobsOf(config, members, bs)[0].flags[i] == FlagFor(Group({config.crates.crate}), m);
  }

  function Occurrences(cs: seq<string>, m: string): nat {
    if cs == [] then 0 else Occurrences(cs[..|cs| - 1], m) + if cs[|cs| - 1] == m then 1 else 0
  }

  lemma {:induction false} GroupsCount(bs: seq<Bucket>, cs: seq<string>, m: string)
    requires |bs| == |cs| && forall i | 0 <= i < |cs| :: bs[i] == Group({cs[i]})
    ensures Count(bs, m) == Occurrences(cs, m)
  {
    if cs != [] {
      GroupsCount(bs[..|bs| - 1], cs[..|cs| - 1], m);
    }
  }

  /** A configuration for several crates has one job for each, and tests a member as often as it is listed. */
  lemma EachTests(config: Config, members: seq<string>, bs: seq<Bucket>, m: string)
    requires config.crates.Each? && m in members
    ensures var js, cs := JobsOf(config, members, bs), config.crates.crates;
            && |js| == |cs| && Jobs(js, m) == Occurrences(cs, m)
            && forall k | 0 <= k < |cs| :: (Package(m) in js[k].flags <==> m == cs[k]) && js[k].args == ""
  {
    var js, cs, of := JobsOf(config, members, bs), config.crates.crates, BucketsOf(config, bs);
    JobsCount(config, members, bs, m, |of|);
    assert js[..|of|] == js && of[..|of|] == of;
    GroupsCount(of, cs, m);
    var i :| 0 <= i < |members| && members[i] == m;
    assert forall k | 0 <= k < |cs| :: js[k].flags[i] == FlagFor(Group({cs[k]}), m);
  }

  // ----- with which arguments

  /** The extra arguments of the jobs that test a crate, in order. */
  function ArgsOf(js: seq<Job>, c: string): seq<string> {
    if js == [] then []
    else ArgsOf(js[..|js| - 1], c) + if Package(c) in js[|js| - 1].flags then [js[|js| - 1].args] else []
  }

  function BucketArgs(bs: seq<Bucket>, c: string): seq<string> {
    if bs == [] then []
    else
      var b := bs[|bs| - 1];
      BucketArgs(bs[..|bs| - 1], c) + if Has(b, c) then [if b.SubBucket? then b.sub.args else ""] else []
  }

  /** The arguments that an entry gives for a crate. */
  function EntryArgs(e: Entry, c: string): seq<string> {
    if e.crate != c then []
    else if e.Single? then [""]
    else seq(|e.subs|, i requires 0 <= i < |e.subs| => e.subs[i].args)
  }

  function AllEntryArgs(entries: seq<Entry>, c: string): seq<string> {
    if entries == [] then []
    else AllEntryArgs(entries[..|entries| - 1], c) + EntryArgs(entries[|entries| - 1], c)
  }

  lemma {:induction false} BucketArgsAppend(a: seq<Bucket>, b: seq<Bucket>, c: string)
    ensures BucketArgs(a + b, c) == BucketArgs(a, c) + BucketArgs(b, c)
    decreases |b|
  {
    if b == [] {
      assert a + b == a;
    } else {
      assert (a + b)[..|a + b| - 1] == a + b[..|b| - 1];
      BucketArgsAppend(a, b[..|b| - 1], c);
    }
  }

  lemma {:induction false} SubArgs(crate: string, subs: seq<Sub>, c: string, n: nat)
    requires n <= |subs|
    ensures BucketArgs(EntryBuckets(Split(crate, subs))[..n], c) ==
            EntryArgs(Split(crate, subs), c)[..if c == crate then n else 0]
  {
    if n > 0 {
      SubArgs(crate, subs, c, n - 1);
      var bs := EntryBuckets(Split(crate, subs));
      assert bs[..n][..n - 1] == bs[..n - 1] && bs[..n][n - 1] == SubBucket(crate, subs[n - 1]);
    }
  }

  lemma {:induction false} EntriesArgs(entries: seq<Entry>, c: string)
    ensures BucketArgs(AllEntryBuckets(entries), c) == AllEntryArgs(entries, c)
  {
    if entries != [] {
      var n := |entries| - 1;
      EntriesArgs(entries[..n], c);
      BucketArgsAppend(AllEntryBuckets(entries[..n]), EntryBuckets(entries[n]), c);
      match entries[n]
      case Single(crate) =>
        assert EntryBuckets(entries[n])[..0] == [];
      case Split(crate, subs) =>
        SubArgs(crate, subs, c, |subs|);
        var bs, args := EntryBuckets(entries[n]), EntryArgs(entries[n], c);
        assert bs[..|subs|] == bs && args[..|args|] == args && args[..0] == [];
    }
  }

  /** Generic buckets have no arguments. */
  lemma {:induction false} GroupArgs(bs: seq<Bucket>, c: string)
    requires forall b | b in bs :: b.Group?
    ensures |BucketArgs(bs, c)| == Count(bs, c) && forall a | a in BucketArgs(bs, c) :: a == ""
  {
    if bs != [] {
      assert bs[|bs| - 1] in bs;
      GroupArgs(bs[..|bs| - 1], c);
    }
  }

  lemma {:induction false} JobsArgs(config: Config, members: seq<string>, bs: seq<Bucket>, c: string, n: nat)
    requires c in members && n <= |BucketsOf(config, bs)|
    ensures ArgsOf(JobsOf(config, members, bs)[..n], c) == BucketArgs(BucketsOf(config, bs)[..n], c)
  {
    if n > 0 {
      JobsArgs(config, members, bs, c, n - 1);
      var js, of := JobsOf(config, members, bs), BucketsOf(config, bs);
      assert js[..n][..n - 1] == js[..n - 1] && of[..n][..n - 1] == of[..n - 1];
      var i :| 0 <= i < |members| && members[i] == c;
      assert js[n - 1].flags[i] == FlagFor(of[n - 1], c);
    }
  }

  /** The jobs that test a member have the arguments its entries give, in their order, so that each part of
      a split crate is tested once; a member without entries is tested without arguments. */
  lemma TestedWith(config: Config, members: seq<string>, entries: seq<Entry>, c: string)
    requires Distinct(members) && c in members && Shards(config)
    ensures ArgsOf(JobsOf(config, members, Buckets(members, entries)), c) ==
            if c in SingleNames(entries) then AllEntryArgs(entries, c) else [""]
  {
    var rest := Rest(members, SingleNames(entries));
    var bs := Buckets(members, entries);
    var js := JobsOf(config, members, bs);
    JobsArgs(config, members, bs, c, |bs|);
    assert js[..|bs|] == js && bs[..|bs|] == bs;
    BucketArgsAppend(GenericBuckets(rest), AllEntryBuckets(entries), c);
    EntriesArgs(entries, c);
    RestOf(members, SingleNames(entries));
    CountGeneric(rest, c);
    GroupArgs(GenericBuckets(rest), c);
    if c !in SingleNames(entries) {
      NoEntryArgs(entries, c);
      assert BucketArgs(GenericBuckets(rest), c)[0] in BucketArgs(GenericBuckets(rest), c);
    }
  }

  lemma {:induction false} NoEntryArgs(entries: seq<Entry>, c: string)
    requires c !in SingleNames(entries)
    ensures AllEntryArgs(entries, c) == []
  {
    if entries != [] {
      assert entries[|entries| - 1] in entries;
      NoEntryArgs(entries[..|entries| - 1], c);
    }
  }

  // ----- all configurations

  function JobsWithId(js: seq<Job>, id: nat): seq<Job> {
    if js == [] then []
    else JobsWithId(js[..|js| - 1], id) + if js[|js| - 1].id == id then [js[|js| - 1]] else []
  }

  lemma {:induction false} WithIdAppend(a: seq<Job>, b: seq<Job>, id: nat)
    ensures JobsWithId(a + b, id) == JobsWithId(a, id) + JobsWithId(b, id)
    decreases |b|
  {
    if b == [] {
      assert a + b == a;
    } else {
      assert (a + b)[..|a + b| - 1] == a + b[..|b| - 1];
      WithIdAppend(a, b[..|b| - 1], id);
    }
  }

  lemma {:induction false} WithOneId(js: seq<Job>, own: nat, id: nat)
    requires forall j | j in js :: j.id == own
    ensures JobsWithId(js, id) == if own == id then js else []
  {
    if js != [] {
      assert js[|js| - 1] in js;
      WithOneId(js[..|js| - 1], own, id);
      assert js == js[..|js| - 1] + [js[|js| - 1]];
    }
  }

  ghost predicate DistinctIds(configs: seq<Config>) {
    forall i, j | 0 <= i < j < |configs| :: configs[i].id != configs[j].id
  }

  lemma LastIdDiffers(configs: seq<Config>, k: nat)
    requires DistinctIds(configs) && k < |configs|
    ensures var n := |configs| - 1;
            && DistinctIds(configs[..n]) && (k < n ==> configs[..n][k] == configs[k] && configs[k].id != configs[n].id)
            && forall i | 0 <= i < n :: configs[..n][i].id != configs[n].id
  {
  }

  /** Every configuration gets exactly its own jobs, whatever the others are. */
  lemma {:induction false} JobsOfEach(configs: seq<Config>, members: seq<string>, bs: seq<Bucket>, k: nat)
    requires k < |configs| && DistinctIds(configs)
    ensures JobsWithId(AllJobs(configs, members, bs), configs[k].id) == JobsOf(configs[k], members, bs)
    decreases |configs|
  {
    hide DistinctIds, JobsOf, JobsWithId;
    LastIdDiffers(configs, k);
    var n, id := |configs| - 1, configs[k].id;
    var before, last := AllJobs(configs[..n], members, bs), JobsOf(configs[n], members, bs);
    WithIdAppend(before, last, id);
    OwnIds(configs[n], members, bs);
    WithOneId(last, configs[n].id, id);
    if k < n {
      JobsOfEach(configs[..n], members, bs, k);
      assert JobsWithId(before, id) + [] == JobsWithId(before, id);
    } else {
      OtherIds(configs[..n], members, bs, id);
      assert [] + last == last;
    }
  }

  lemma OwnIds(config: Config, members: seq<string>, bs: seq<Bucket>)
    ensures forall j | j in JobsOf(config, members, bs) :: j.id == config.id
  {
  }

  lemma {:induction false} OtherIds(configs: seq<Config>, members: seq<string>, bs: seq<Bucket>, id: nat)
    requires forall i | 0 <= i < |configs| :: configs[i].id != id
    ensures JobsWithId(AllJobs(configs, members, bs), id) == []
    decreases |configs|
  {
    if configs != [] {
      var n := |configs| - 1;
      OtherIds(configs[..n], members, bs, id);
      WithIdAppend(AllJobs(configs[..n], members, bs), JobsOf(configs[n], members, bs), id);
      WithOneId(JobsOf(configs[n], members, bs), configs[n].id, id);
    }
  }

  // ----- every job names every member

  /** How many flags name a crate. */
  function FlagsFor(flags: seq<Flag>, c: string): nat {
    if flags == [] then 0 else FlagsFor(flags[..|flags| - 1], c) + if flags[|flags| - 1].crate == c then 1 else 0
  }

  lemma {:induction false} OneFlagEach(config: Config, members: seq<string>, b: Bucket, c: string, n: nat)
    requires Distinct(members) && n <= |members|
    ensures FlagsFor(JobFor(config, members, b).flags[..n], c) == if c in members[..n] then 1 else 0
  {
    if n > 0 {
      OneFlagEach(config, members, b, c, n - 1);
      var flags := JobFor(config, members, b).flags;
      assert flags[..n][..n - 1] == flags[..n - 1] && members[..n] == members[..n - 1] + [members[n - 1]];
      assert members[n - 1] !in members[..n - 1];
    }
  }

  /** Every job of a configuration names each member of the workspace exactly once and nothing else: to be
      tested if it is in the job's bucket, and to be excluded otherwise. */
  lemma JobNamesEveryMember(config: Config, members: seq<string>, bs: seq<Bucket>, k: nat, c: string)
    requires Distinct(members) && k < |BucketsOf(config, bs)|
    ensures var flags := JobsOf(config, members, bs)[k].flags;
            && FlagsFor(flags, c) == (if c in members then 1 else 0)
            && (Package(c) in flags <==> c in members && Has(BucketsOf(config, bs)[k], c))
            && (Exclude(c) in flags <==> c in members && !Has(BucketsOf(config, bs)[k], c))
  {
    var b := BucketsOf(config, bs)[k];
    var flags := JobFor(config, members, b).flags;
    OneFlagEach(config, members, b, c, |members|);
    assert flags[..|members|] == flags && members[..|members|] == members;
    if c in members {
      var i :| 0 <= i < |members| && members[i] == c;
      assert flags[i] == FlagFor(b, c);
    }
  }

  /** The generic buckets differ in size by at most one. */
  lemma {:induction false} EveryThirdSize(rest: seq<string>, k: nat)
    requires Distinct(rest) && k < GENERIC_BUCKETS
    ensures |EveryThird(rest, k)| == |rest| / GENERIC_BUCKETS + if k < |rest| % GENERIC_BUCKETS then 1 else 0
    decreases |rest|
  {
    if rest != [] {
      var n := |rest| - 1;
      EveryThirdSize(rest[..n], k);
      assert rest == rest[..n] + [rest[n]];
      AddThirdAt(rest[..n], rest[n], k);
      assert rest[n] !in EveryThird(rest[..n], k);
    } else {
      assert EveryThird(rest, k) == {};
    }
  }

  /** A crate split in two is tested by two jobs, so these are not disjoint. */
  lemma SplitIsTestedTwice(config: Config, crate: string, first: Sub, second: Sub)
    requires Shards(config)
    ensures Jobs(JobsOf(config, [crate], Buckets([crate], [Split(crate, [first, second])])), crate) == 2
  {
    var e := Split(crate, [first, second]);
    TestedAsOften(config, [crate], [e], crate);
    assert e in [e];
    assert [e][..0] == [] && TotalCopies([e], crate) == Copies(e, crate);
  }
}

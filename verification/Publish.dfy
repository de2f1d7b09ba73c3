/** `scripts/publish.rs`: version bumps across the manifests of a workspace, and the loop that
    publishes crates until none is left. */
module Publish {
  import opened Options

  const U32_MAX: nat := 0xFFFF_FFFF

  // ----- versions

  datatype Version = Version(major: nat, minor: nat, patch: nat)

  /** `bump`; `None` is the panic when a component is already the largest `u32`. */
  function Bump(v: Version, patchBump: bool): (r: Option<Version>) {
    if patchBump || (v.major == 0 && v.minor == 0) then
      if v.patch >= U32_MAX then None
      else Some(Version(v.major, v.minor, v.patch + 1))
    else if v.major != 0 then
      if v.major >= U32_MAX then None else Some(Version(v.major + 1, 0, 0))
    else
      if v.minor >= U32_MAX then None else Some(Version(0, v.minor + 1, 0))
  }

  /** Precedence, section 11 of Semantic Versioning 2.0.0, for versions without pre-release. */
  predicate Precedes(a: Version, b: Version) {
    || a.major < b.major
    || (a.major == b.major && a.minor < b.minor)
    || (a.major == b.major && a.minor == b.minor && a.patch < b.patch)
  }

  /** Whether a default requirement on `req` is met by `v`: nothing may change at or before the
      leftmost nonzero component, and `v` is not older. */
  predicate Compatible(req: Version, v: Version) {
    && !Precedes(v, req)
    && v.major == req.major
    && (req.major == 0 ==> v.minor == req.minor)
    && (req.major == 0 && req.minor == 0 ==> v.patch == req.patch)
  }

  /** The component that a bump increases. */
  function Bumped(v: Version, patchBump: bool): nat {
    if patchBump || (v.major == 0 && v.minor == 0) then v.patch
    else if v.major == 0 then v.minor
    else v.major
  }

  lemma BumpsIff(v: Version, patchBump: bool)
    ensures Bump(v, patchBump).Some? <==> Bumped(v, patchBump) < U32_MAX
  {
  }

  /** A bump moves a version strictly up, and no further than it must: to the next version after a patch
      bump, and otherwise to the first one that dependents of the old version do not accept.  They accept
      the new one after a patch bump, except of a 0.0 version, and never after any other. */
  lemma BumpMeaning(v: Version, patchBump: bool, w: Version)
    requires Bump(v, patchBump).Some?
    ensures var r := Bump(v, patchBump).value;
            && Precedes(v, r)
            && (Compatible(v, r) <==> patchBump && !(v.major == 0 && v.minor == 0))
            && (Precedes(v, w) && (patchBump || !Compatible(v, w)) ==> !Precedes(w, r))
  {
  }

  /** Precedence is a strict total order. */
  lemma PrecedesOrders(a: Version, b: Version, c: Version)
    ensures !Precedes(a, a) && (Precedes(a, b) && Precedes(b, c) ==> Precedes(a, c))
    ensures Precedes(a, b) || Precedes(b, a) || a == b
  {
  }

  // ----- manifests

  /** A line of a manifest: a section header, the lines `read_crate` looks for, a dependency on a
      crate with its version requirement if it has one, or anything else. */
  datatype Line =
    | Header(dependencies: bool)
    | VersionLine(v: Version)
    | VersionWorkspace
    | Dep(name: string, version: Option<Version>, exact: bool)
    | OtherLine

  datatype Crate = Crate(name: string, manifest: seq<Line>, version: Version, publish: bool)

  /** The version `read_crate` finds: the first one given, where `version.workspace = true` counts if
      a workspace version is known. */
  function ReadVersion(ws: Option<Version>, lines: seq<Line>): (v: Option<Version>) {
    if lines == [] then None
    else if lines[0].VersionLine? then Some(lines[0].v)
    else if lines[0].VersionWorkspace? && ws.Some? then ws
    else ReadVersion(ws, lines[1..])
  }

  function NextVersion(c: Crate, patchBump: bool): Option<Version> {
    if c.publish then Bump(c.version, patchBump) else Some(c.version)
  }

  function InDeps(line: Line, isDeps: bool): bool {
    if line.Header? then line.dependencies else isDeps
  }

  predicate Matches(line: Line, other: Crate) {
    line.Dep? && line.name == other.name && other.publish
  }

  /** The search for the crate a dependency line is about; `None` is a panic.  `public` are the crates
      that may not be required exactly; all others must be. */
  function RewriteDep(krate: Crate, crates: seq<Crate>, line: Line, public: set<string>, patchBump: bool)
    : (r: Option<Line>)
  {
    if crates == [] then Some(line)
    else
      var other := crates[0];
      if !Matches(line, other) then RewriteDep(krate, crates[1..], line, public, patchBump)
      else if line.version != Some(other.version) then
        if line.version.None? || !krate.publish then RewriteDep(krate, crates[1..], line, public, patchBump) else None
      else if krate.publish && line.exact == (other.name in public) then None
      else
        var n := NextVersion(other, patchBump);
        if n.None? then None else Some(line.(version := n))
  }

  function RewriteLine(krate: Crate, crates: seq<Crate>, line: Line, isDeps: bool, public: set<string>, patchBump: bool)
    : (r: Option<Line>)
  {
    if line.VersionLine? && !isDeps && krate.publish then
      var n := NextVersion(krate, patchBump);
      if n.None? then None else Some(VersionLine(if line.v == krate.version then n.value else line.v))
    else if line.Dep? && isDeps then RewriteDep(krate, crates, line, public, patchBump)
    else Some(line)
  }

  /** The whole manifest; `isDeps` is whether the line before was in a dependency section. */
  function Rewrite(krate: Crate, crates: seq<Crate>, lines: seq<Line>, isDeps: bool, public: set<string>,
          patchBump: bool)
    : (r: Option<seq<Line>>)
  {
    if lines == [] then Some([])
    else
      var line := RewriteLine(krate, crates, lines[0], isDeps, public, patchBump);
      var rest := Rewrite(krate, crates, lines[1..], InDeps(lines[0], isDeps), public, patchBump);
      if line.None? || rest.None? then None else Some([line.value] + rest.value)
  }

  /** Whether line `i` is in a dependency section. */
  ghost function Section(lines: seq<Line>, isDeps: bool, i: nat): bool
    requires i <= |lines|
  {
    if i == 0 then isDeps else InDeps(lines[i - 1], Section(lines, isDeps, i - 1))
  }

  lemma {:induction false} SectionTail(lines: seq<Line>, isDeps: bool, i: nat)
    requires 0 < i <= |lines|
    ensures Section(lines, isDeps, i) == Section(lines[1..], InDeps(lines[0], isDeps), i - 1)
  {
    if i > 1 {
      SectionTail(lines, isDeps, i - 1);
    }
  }

  /** That is so exactly after a dependency header, until the next header of any kind. */
  lemma {:induction false} SectionIff(lines: seq<Line>, isDeps: bool, i: nat)
    requires i <= |lines|
    ensures Section(lines, isDeps, i) <==>
            || (isDeps && forall l | 0 <= l < i :: !lines[l].Header?)
            || exists j :: 0 <= j < i && lines[j].Header? && lines[j].dependencies && NoHeader(lines, j + 1, i)
  {
    if i > 0 {
      SectionIff(lines, isDeps, i - 1);
      if j :| 0 <= j < i - 1 && lines[j].Header? && lines[j].dependencies && NoHeader(lines, j + 1, i - 1) {
        assert !lines[i - 1].Header? ==> NoHeader(lines, j + 1, i);
      }
      if j :| 0 <= j < i && lines[j].Header? && lines[j].dependencies && NoHeader(lines, j + 1, i) {
        assert j < i - 1 ==> NoHeader(lines, j + 1, i - 1);
      }
      assert NoHeader(lines, i, i);
    }
  }

  ghost predicate NoHeader(lines: seq<Line>, from: nat, to: nat)
    requires to <= |lines|
  {
    forall l | from <= l < to :: !lines[l].Header?
  }

  /** A rewritten manifest has one line for each line, rewritten according to its section. */
  lemma {:induction false} RewriteAt(krate: Crate, crates: seq<Crate>, lines: seq<Line>, isDeps: bool,
          public: set<string>, patchBump: bool, i: nat)
    requires Rewrite(krate, crates, lines, isDeps, public, patchBump).Some? && i < |lines|
    ensures var out := Rewrite(krate, crates, lines, isDeps, public, patchBump).value;
            && |out| == |lines|
            && RewriteLine(krate, crates, lines[i], Section(lines, isDeps, i), public, patchBump) == Some(out[i])
    decreases |lines|
  {
    if i > 0 {
      SectionTail(lines, isDeps, i);
    }
    if |lines| > 1 {
      RewriteAt(krate, crates, lines[1..], InDeps(lines[0], isDeps), public, patchBump, if i > 0 then i - 1 else 0);
    }
  }

  // ----- dependencies

  ghost predicate DistinctNames(crates: seq<Crate>) {
    forall i, j | 0 <= i < j < |crates| :: crates[i].name != crates[j].name
  }

  lemma {:induction false} NoMatchNoChange(krate: Crate, crates: seq<Crate>, line: Line, public: set<string>,
          patchBump: bool)
    requires forall c | c in crates :: !Matches(line, c)
    ensures RewriteDep(krate, crates, line, public, patchBump) == Some(line)
  {
    if crates != [] {
      assert crates[0] in crates;
      NoMatchNoChange(krate, crates[1..], line, public, patchBump);
    }
  }

  /** What the search does with a line about the published crate `c`, wherever `c` is in the list. */
  lemma {:induction false} RewriteDepAbout(krate: Crate, crates: seq<Crate>, line: Line, public: set<string>,
          patchBump: bool, c: Crate)
    requires DistinctNames(crates) && c in crates && Matches(line, c)
    ensures RewriteDep(krate, crates, line, public, patchBump) ==
            if line.version == Some(c.version) then
              if (krate.publish && line.exact == (c.name in public)) || NextVersion(c, patchBump).None? then None
              else Some(line.(version := NextVersion(c, patchBump)))
            else if line.version.Some? && krate.publish then None
            else Some(line)
    decreases |crates|
  {
    if crates[0] == c {
      assert forall d | d in crates[1..] :: d.name != c.name by {
        assert forall j | 0 < j < |crates| :: crates[j].name != crates[0].name;
      }
      NoMatchNoChange(krate, crates[1..], line, public, patchBump);
    } else {
      var j :| 0 < j < |crates| && crates[j] == c;
      assert crates[0].name != crates[j].name;
      assert crates[1..][j - 1] == c;
      RewriteDepAbout(krate, crates[1..], line, public, patchBump, c);
    }
  }

  /** A dependency on no published crate is left as it is, whatever version it names, and is not refused. */
  lemma UnpublishedIgnored(krate: Crate, crates: seq<Crate>, line: Line, public: set<string>, patchBump: bool)
    requires line.Dep? && forall c | c in crates && c.name == line.name :: !c.publish
    ensures RewriteDep(krate, crates, line, public, patchBump) == Some(line)
  {
    NoMatchNoChange(krate, crates, line, public, patchBump);
  }

  /** A version line is bumped if and only if it is outside dependency sections, in the manifest of a published
      crate, and gives that crate's version. */
  lemma VersionLinesBumped(krate: Crate, crates: seq<Crate>, public: set<string>, patchBump: bool, i: nat)
    requires Rewrite(krate, crates, krate.manifest, false, public, patchBump).Some?
    requires i < |krate.manifest| && krate.manifest[i].VersionLine?
    ensures var out, line := Rewrite(krate, crates, krate.manifest, false, public, patchBump).value, krate.manifest[i];
            && |out| == |krate.manifest| && out[i].VersionLine?
            && (out[i] != line <==> krate.publish && line.v == krate.version && !Section(krate.manifest, false, i))
            && (out[i] != line ==> Bump(krate.version, patchBump) == Some(out[i].v))
  {
    RewriteAt(krate, crates, krate.manifest, false, public, patchBump, i);
  }

  /** What a bump leaves of a versioned dependency on a published crate `c`, in any manifest: the line
      ends up naming `c`'s new version if and only if it named its old one (or that new one already).
      In a published crate's manifest it always did, and then the requirement is exact unless `c` is
      public.  The order of the crates does not matter. */
  lemma DependenciesNameNewVersions(krate: Crate, crates: seq<Crate>, public: set<string>, patchBump: bool, i: nat,
          c: Crate)
    requires DistinctNames(crates) && c in crates && c.publish
    requires Rewrite(krate, crates, krate.manifest, false, public, patchBump).Some? && i < |krate.manifest|
    requires var line := krate.manifest[i];
             line.Dep? && line.name == c.name && line.version.Some? && Section(krate.manifest, false, i)
    ensures var out := Rewrite(krate, crates, krate.manifest, false, public, patchBump).value;
            var line := krate.manifest[i];
            && |out| == |krate.manifest| && out[i].Dep?
            && (out[i].version == NextVersion(c, patchBump) <==>
                  line.version == Some(c.version) || line.version == NextVersion(c, patchBump))
            && out[i] == line.(version := out[i].version)
            && (line.version != Some(c.version) ==> out[i] == line)
            && (krate.publish ==>
                  && line.version == Some(c.version) && NextVersion(c, patchBump).Some?
                  && out[i] == Dep(c.name, NextVersion(c, patchBump), c.name !in public))
  {
    RewriteAt(krate, crates, krate.manifest, false, public, patchBump, i);
    RewriteDepAbout(krate, crates, krate.manifest[i], public, patchBump, c);
  }

  /** A manifest that is not published may name a version that is not current; that line is kept. */
  lemma StaleLineKept() returns (krate: Crate, c: Crate)
    ensures !krate.publish && c.publish && c.version == Version(2, 0, 0)
    ensures krate.manifest == [Header(true), Dep(c.name, Some(Version(1, 0, 0)), false)]
    ensures Rewrite(krate, [c, krate], krate.manifest, false, {}, false) == Some(krate.manifest)
    ensures NextVersion(c, false) == Some(Version(3, 0, 0))
  {
    c := Crate("library", [VersionLine(Version(2, 0, 0))], Version(2, 0, 0), true);
    var line := Dep("library", Some(Version(1, 0, 0)), false);
    krate := Crate("example", [Header(true), line], Version(0, 0, 0), false);
    var crates := [c, krate];
    RewriteDepAbout(krate, crates, line, {}, false, c);
    RewriteKept(krate, crates, line, [], true, {}, false);
    assert [line] + [] == [line];
    RewriteKept(krate, crates, Header(true), [line], false, {}, false);
    assert krate.manifest == [Header(true)] + [line];
  }

  lemma RewriteKept(krate: Crate, crates: seq<Crate>, line: Line, rest: seq<Line>, isDeps: bool,
          public: set<string>, patchBump: bool)
    requires RewriteLine(krate, crates, line, isDeps, public, patchBump) == Some(line)
    requires Rewrite(krate, crates, rest, InDeps(line, isDeps), public, patchBump) == Some(rest)
    ensures Rewrite(krate, crates, [line] + rest, isDeps, public, patchBump) == Some([line] + rest)
  {
    assert ([line] + rest)[1..] == rest;
  }

  /** What the script refuses: a version that cannot be bumped, or a dependency of a published crate
      on a published crate that does not name its current version, or not in the way it should. */
  ghost predicate Refused(krate: Crate, crates: seq<Crate>, line: Line, isDeps: bool, public: set<string>,
          patchBump: bool) {
    || (line.VersionLine? && !isDeps && NextVersion(krate, patchBump).None?)
    || (isDeps && exists c | c in crates && Matches(line, c) ::
          if line.version == Some(c.version)
          then NextVersion(c, patchBump).None? || (krate.publish && line.exact == (c.name in public))
          else line.version.Some? && krate.publish)
  }

  lemma RefusedLine(krate: Crate, crates: seq<Crate>, line: Line, isDeps: bool, public: set<string>, patchBump: bool)
    requires DistinctNames(crates)
    ensures RewriteLine(krate, crates, line, isDeps, public, patchBump).None?
       <==> Refused(krate, crates, line, isDeps, public, patchBump)
  {
    if line.Dep? && isDeps {
      if c :| c in crates && Matches(line, c) {
        RewriteDepAbout(krate, crates, line, public, patchBump, c);
        forall d | d in crates && Matches(line, d)
          ensures d == c
        {
        }
      } else {
        NoMatchNoChange(krate, crates, line, public, patchBump);
      }
    }
  }

  /** The script panics on a manifest exactly when one of its lines is refused. */
  lemma {:induction false} PanicsIffRefused(krate: Crate, crates: seq<Crate>, lines: seq<Line>, isDeps: bool,
          public: set<string>, patchBump: bool)
    requires DistinctNames(crates)
    ensures Rewrite(krate, crates, lines, isDeps, public, patchBump).None?
       <==> exists i :: 0 <= i < |lines| &&
              Refused(krate, crates, lines[i], Section(lines, isDeps, i), public, patchBump)
    decreases |lines|
  {
    if lines != [] {
      RefusedLine(krate, crates, lines[0], isDeps, public, patchBump);
      var tail, after := lines[1..], InDeps(lines[0], isDeps);
      PanicsIffRefused(krate, crates, tail, after, public, patchBump);
      forall i | 0 < i < |lines|
        ensures Section(lines, isDeps, i) == Section(tail, after, i - 1)
      {
        SectionTail(lines, isDeps, i);
      }
      if i :| 0 <= i < |tail| && Refused(krate, crates, tail[i], Section(tail, after, i), public, patchBump) {
        assert lines[i + 1] == tail[i] && Section(lines, isDeps, i + 1) == Section(tail, after, i);
        assert Refused(krate, crates, lines[i + 1], Section(lines, isDeps, i + 1), public, patchBump);
      }
      if i :| 0 < i < |lines| && Refused(krate, crates, lines[i], Section(lines, isDeps, i), public, patchBump) {
        assert tail[i - 1] == lines[i];
        assert Refused(krate, crates, tail[i - 1], Section(tail, after, i - 1), public, patchBump);
      }
    }
  }

  /** The inner loop of `bump_version`: the line as it is written out, or `None` for a panic. */
  method RewriteDependency(krate: Crate, crates: seq<Crate>, line: Line, isDeps: bool, public: set<string>,
          patchBump: bool)
    returns (r: Option<Line>)
    ensures r == if isDeps then RewriteDep(krate, crates, line, public, patchBump) else Some(line)
  {
    for i := 0 to |crates|
      invariant isDeps ==>
                  RewriteDep(krate, crates[i..], line, public, patchBump) ==
                  RewriteDep(krate, crates, line, public, patchBump)
    {
      var other := crates[i];
      assert crates[i..][0] == other && crates[i..][1..] == crates[i + 1..];
      if !other.publish || !isDeps || !line.Dep? || line.name != other.name {
        continue;
      }
      if line.version != Some(other.version) {
        if line.version.None? || !krate.publish {
          continue;
        }
        return None;
      }
      if krate.publish {
        if other.name in public {
          if line.exact { return None; }
        } else {
          if !line.exact { return None; }
        }
      }
      var n := NextVersion(other, patchBump);
      if n.None? { return None; }
      return Some(line.(version := n));
    }
    r := Some(line);
  }

  lemma {:induction false} OnlyDepsRewritten(krate: Crate, crates: seq<Crate>, line: Line, public: set<string>,
          patchBump: bool)
    requires !line.Dep?
    ensures RewriteDep(krate, crates, line, public, patchBump) == Some(line)
  {
    NoMatchNoChange(krate, crates, line, public, patchBump);
  }

  function Prepend(out: seq<Line>, rest: Option<seq<Line>>): Option<seq<Line>> {
    if rest.None? then None else Some(out + rest.value)
  }

  /** The body of the loop of `bump_version`, with the flag for the next line. */
  method RewriteOneLine(krate: Crate, crates: seq<Crate>, line: Line, isDeps: bool, public: set<string>,
          patchBump: bool)
    returns (r: Option<Line>, isDeps': bool)
    ensures r == RewriteLine(krate, crates, line, isDeps, public, patchBump) && isDeps' == InDeps(line, isDeps)
  {
    isDeps' := isDeps;
    if !isDeps && line.VersionLine? {
      if krate.publish {
        var n := NextVersion(krate, patchBump);
        if n.None? { return None, isDeps'; }
        return Some(VersionLine(if line.v == krate.version then n.value else line.v)), isDeps';
      }
    }
    if line.Header? {
      isDeps' := line.dependencies;
    }
    r := RewriteDependency(krate, crates, line, isDeps', public, patchBump);
    if !line.Dep? {
      OnlyDepsRewritten(krate, crates, line, public, patchBump);
    }
  }

  lemma RewriteNext(krate: Crate, crates: seq<Crate>, lines: seq<Line>, i: nat, out: seq<Line>, isDeps: bool,
          public: set<string>, patchBump: bool)
    requires i < |lines|
    ensures var line := RewriteLine(krate, crates, lines[i], isDeps, public, patchBump);
            Prepend(out, Rewrite(krate, crates, lines[i..], isDeps, public, patchBump)) ==
            if line.None? then None
            else Prepend(out + [line.value],
                         Rewrite(krate, crates, lines[i + 1..], InDeps(lines[i], isDeps), public, patchBump))
  {
    var line := RewriteLine(krate, crates, lines[i], isDeps, public, patchBump);
    var rest := Rewrite(krate, crates, lines[i + 1..], InDeps(lines[i], isDeps), public, patchBump);
    assert lines[i..][0] == lines[i] && lines[i..][1..] == lines[i + 1..];
    if line.Some? && rest.Some? {
      assert out + ([line.value] + rest.value) == out + [line.value] + rest.value;
    }
  }

  /** `bump_version`: the manifest it writes. */
  method BumpVersion(krate: Crate, crates: seq<Crate>, public: set<string>, patchBump: bool)
    returns (r: Option<seq<Line>>)
    ensures r == Rewrite(krate, crates, krate.manifest, false, public, patchBump)
  {
    var lines := krate.manifest;
    var out, isDeps := [], false;
    ghost var whole := Rewrite(krate, crates, lines, false, public, patchBump);
    assert lines[0..] == lines && Prepend([], whole) == whole by {
      assert whole.Some? ==> [] + whole.value == whole.value;
    }
    for i := 0 to |lines|
      invariant whole == Prepend(out, Rewrite(krate, crates, lines[i..], isDeps, public, patchBump))
    {
      RewriteNext(krate, crates, lines, i, out, isDeps, public, patchBump);
      var line;
      line, isDeps := RewriteOneLine(krate, crates, lines[i], isDeps, public, patchBump);
      if line.None? {
        return None;
      }
      out := out + [line.value];
    }
    assert lines[|lines|..] == [] && out + [] == out;
    r := Some(out);
  }

  // ----- reading the bumped manifests again

  /** The version read is the manifest's own and not the workspace's. */
  predicate OwnVersion(ws: Option<Version>, lines: seq<Line>) {
    && lines != []
    && (|| lines[0].VersionLine?
        || (!(lines[0].VersionWorkspace? && ws.Some?) && OwnVersion(ws, lines[1..])))
  }

  /** The line the version is read from is not in a dependency section; what comes after it may be. */
  predicate WellPlaced(ws: Option<Version>, lines: seq<Line>, isDeps: bool) {
    || lines == []
    || (lines[0].VersionWorkspace? && ws.Some?)
    || (if lines[0].VersionLine? then !isDeps else WellPlaced(ws, lines[1..], InDeps(lines[0], isDeps)))
  }

  lemma {:induction false} RereadOwn(krate: Crate, crates: seq<Crate>, lines: seq<Line>, isDeps: bool,
          public: set<string>, patchBump: bool, ws: Option<Version>, ws': Option<Version>)
    requires Rewrite(krate, crates, lines, isDeps, public, patchBump).Some?
    requires ws.Some? == ws'.Some? && ReadVersion(ws, lines) == Some(krate.version)
    ensures ReadVersion(ws', Rewrite(krate, crates, lines, isDeps, public, patchBump).value) ==
            if !OwnVersion(ws, lines) then ws'
            else if WellPlaced(ws, lines, isDeps) then NextVersion(krate, patchBump)
            else Some(krate.version)
    decreases |lines|
  {
    if !lines[0].VersionLine? {
      var out := Rewrite(krate, crates, lines, isDeps, public, patchBump).value;
      if lines[0].Dep? && isDeps {
        RewriteDepIsDep(krate, crates, lines[0], public, patchBump);
      }
      if !(lines[0].VersionWorkspace? && ws.Some?) {
        RereadOwn(krate, crates, lines[1..], InDeps(lines[0], isDeps), public, patchBump, ws, ws');
        assert out[1..] == Rewrite(krate, crates, lines[1..], InDeps(lines[0], isDeps), public, patchBump).value;
      }
    }
  }

  lemma {:induction false} RewriteDepIsDep(krate: Crate, crates: seq<Crate>, line: Line, public: set<string>,
          patchBump: bool)
    requires line.Dep?
    ensures var r := RewriteDep(krate, crates, line, public, patchBump); r.Some? ==> r.value.Dep?
  {
    if crates != [] {
      RewriteDepIsDep(krate, crates[1..], line, public, patchBump);
    }
  }

  /** The crates as `main` reads them: the root without a workspace, the others with its version. */
  ghost predicate Loaded(root: Crate, crates: seq<Crate>) {
    && root in crates
    && ReadVersion(None, root.manifest) == Some(root.version)
    && (forall c | c in crates && c != root :: ReadVersion(Some(root.version), c.manifest) == Some(c.version))
  }

  ghost predicate AllRewritten(crates: seq<Crate>, public: set<string>, patchBump: bool) {
    forall c | c in crates :: Rewrite(c, crates, c.manifest, false, public, patchBump).Some?
  }

  /** The version of `c` as the next run of the script will read it. */
  ghost function Reread(root: Crate, crates: seq<Crate>, public: set<string>, patchBump: bool,
          c: Crate): Option<Version>
    requires root in crates && c in crates && AllRewritten(crates, public, patchBump)
  {
    var newRoot := Rewrite(root, crates, root.manifest, false, public, patchBump).value;
    if c == root then ReadVersion(None, newRoot)
    else ReadVersion(ReadVersion(None, newRoot), Rewrite(c, crates, c.manifest, false, public, patchBump).value)
  }

  lemma {:induction false} OwnWithoutWorkspace(lines: seq<Line>)
    ensures OwnVersion(None, lines) == ReadVersion(None, lines).Some?
  {
    if lines != [] {
      OwnWithoutWorkspace(lines[1..]);
    }
  }

  /** What the next run reads for a version line of the crate's own: a line in a dependency section is
      taken for the version, but is not bumped. */
  ghost function RereadLine(c: Crate, ws: Option<Version>, patchBump: bool): Option<Version> {
    if WellPlaced(ws, c.manifest, false) then NextVersion(c, patchBump) else Some(c.version)
  }

  lemma RereadIs(root: Crate, crates: seq<Crate>, public: set<string>, patchBump: bool, c: Crate)
    requires Loaded(root, crates) && c in crates && AllRewritten(crates, public, patchBump)
    ensures RereadLine(root, None, patchBump).Some?
    ensures Reread(root, crates, public, patchBump, c) ==
            if c != root && OwnVersion(Some(root.version), c.manifest) then RereadLine(c, Some(root.version), patchBump)
            else RereadLine(root, None, patchBump)
  {
    OwnWithoutWorkspace(root.manifest);
    RereadOwn(root, crates, root.manifest, false, public, patchBump, None, None);
    if WellPlaced(None, root.manifest, false) {
      OwnRewritten(root, crates, root.manifest, false, public, patchBump);
    }
    if c != root {
      var ws' := RereadLine(root, None, patchBump);
      RereadOwn(c, crates, c.manifest, false, public, patchBump, Some(root.version), ws');
    }
  }

  /** A manifest with its own version line can only be rewritten if the version can be bumped. */
  lemma {:induction false} OwnRewritten(krate: Crate, crates: seq<Crate>, lines: seq<Line>, isDeps: bool,
          public: set<string>, patchBump: bool)
    requires Rewrite(krate, crates, lines, isDeps, public, patchBump).Some?
    requires WellPlaced(None, lines, isDeps) && OwnVersion(None, lines)
    ensures NextVersion(krate, patchBump).Some?
    decreases |lines|
  {
    if !lines[0].VersionLine? {
      OwnRewritten(krate, crates, lines[1..], InDeps(lines[0], isDeps), public, patchBump);
    }
  }

  lemma {:induction false} InheritedVersion(v: Version, lines: seq<Line>)
    requires ReadVersion(Some(v), lines).Some? && !OwnVersion(Some(v), lines)
    ensures ReadVersion(Some(v), lines) == Some(v)
  {
    if !lines[0].VersionWorkspace? {
      InheritedVersion(v, lines[1..]);
    }
  }

  /** The line that the version of `c` is read from is one that a bump rewrites: outside dependency
      sections, and in the manifest of a crate that is published. */
  ghost predicate ReadFromBumped(root: Crate, c: Crate) {
    if c != root && OwnVersion(Some(root.version), c.manifest) then WellPlaced(Some(root.version), c.manifest, false)
    else root.publish && WellPlaced(None, root.manifest, false)
  }

  /** Once every manifest is bumped, the published crates have the versions their dependents now
      require if and only if each of them is read from a line that was bumped: none takes its version
      from a root that is itself not published, or from a line in a dependency section. */
  lemma BumpConsistentIff(root: Crate, crates: seq<Crate>, public: set<string>, patchBump: bool)
    requires Loaded(root, crates) && AllRewritten(crates, public, patchBump)
    ensures (forall c | c in crates && c.publish ::
               Reread(root, crates, public, patchBump, c) == NextVersion(c, patchBump))
       <==> (forall c | c in crates && c.publish :: ReadFromBumped(root, c))
  {
    forall c | c in crates && c.publish
      ensures Reread(root, crates, public, patchBump, c) == NextVersion(c, patchBump) <==> ReadFromBumped(root, c)
    {
      RereadIs(root, crates, public, patchBump, c);
      if c != root && !OwnVersion(Some(root.version), c.manifest) {
        InheritedVersion(root.version, c.manifest);
      }
    }
  }

  /** A published crate at 1.0.0 by inheritance from an unpublished root is read at 1.0.0 again, while
      its dependents now require 2.0.0. */
  lemma InheritedNotBumped() returns (root: Crate, c: Crate)
    ensures Loaded(root, [root, c]) && AllRewritten([root, c], {}, false) && c.publish
    ensures Reread(root, [root, c], {}, false, c) == Some(Version(1, 0, 0))
    ensures NextVersion(c, false) == Some(Version(2, 0, 0))
  {
    var v := Version(1, 0, 0);
    root := Crate("root", [VersionLine(v)], v, false);
    c := Crate("member", [VersionWorkspace], v, true);
    RereadIs(root, [root, c], {}, false, c);
  }

  // ----- publishing

  /** A crate as the publishing loop sees it, with the published crates it needs on the registry. */
  datatype Release = Release(name: string, publish: bool, deps: set<string>)

  /** What trying to publish a crate in a given round does, with the given crates on the registry. */
  type Attempt = (nat, Release, set<string>) -> bool

  /** `crates.retain(|krate| !publish(krate))`: what stays, and what is out on the registry after. */
  function Retain(attempt: Attempt, round: nat, crates: seq<Release>, out: set<string>)
    : (r: (seq<Release>, set<string>))
  {
    if crates == [] then ([], out)
    else
      var c := crates[0];
      if !c.publish then Retain(attempt, round, crates[1..], out)
      else if attempt(round, c, out) then Retain(attempt, round, crates[1..], out + {c.name})
      else
        var (rest, out') := Retain(attempt, round, crates[1..], out);
        ([c] + rest, out')
  }

  function Names(crates: seq<Release>): set<string> {
    set c | c in crates && c.publish :: c.name
  }

  /** Every crate's dependencies are out or come before it. */
  ghost predicate Sorted(crates: seq<Release>, out: set<string>) {
    forall i | 0 <= i < |crates| && crates[i].publish :: crates[i].deps <= out + Names(crates[..i])
  }

  predicate Subsequence(a: seq<Release>, b: seq<Release>) {
    || a == []
    || (b != [] && ((a[0] == b[0] && Subsequence(a[1..], b[1..])) || Subsequence(a, b[1..])))
  }

  /** Nothing fails for another reason than a missing dependency. */
  ghost predicate FailureFree(attempt: Attempt, round: nat) {
    forall c: Release, out | c.publish && c.deps <= out :: attempt(round, c, out)
  }

  lemma SortedTail(crates: seq<Release>, out: set<string>, out': set<string>)
    requires crates != [] && Sorted(crates, out) && out <= out' && (crates[0].publish ==> crates[0].name in out')
    ensures Sorted(crates[1..], out')
  {
    var tail := crates[1..];
    forall i | 0 <= i < |tail| && tail[i].publish
      ensures tail[i].deps <= out' + Names(tail[..i])
    {
      assert crates[..i + 1] == [crates[0]] + tail[..i];
      assert crates[i + 1].deps <= out + Names(crates[..i + 1]);
    }
  }

  /** What stays keeps its order, and the registry gains exactly the published crates that went. */
  lemma {:induction false} RetainKeeps(attempt: Attempt, round: nat, crates: seq<Release>, out: set<string>)
    ensures var (rest, out') := Retain(attempt, round, crates, out);
            && Subsequence(rest, crates)
            && out <= out' <= out + Names(crates)
            && out + Names(crates) == out' + Names(rest)
    decreases |crates|
  {
    if crates != [] {
      var c := crates[0];
      var tail := crates[1..];
      assert crates == [c] + tail;
      assert Names(crates) == Names(tail) + if c.publish then {c.name} else {};
      RetainKeeps(attempt, round, tail, if c.publish && attempt(round, c, out) then out + {c.name} else out);
      if c.publish && !attempt(round, c, out) {
        var (rest, out') := Retain(attempt, round, tail, out);
        assert ([c] + rest)[1..] == rest;
        assert Names([c] + rest) == Names(rest) + {c.name};
      }
    }
  }

  ghost predicate DistinctReleases(crates: seq<Release>) {
    forall i, j | 0 <= i < j < |crates| && crates[i].publish && crates[j].publish :: crates[i].name != crates[j].name
  }

  lemma {:induction false} RetainPublished(attempt: Attempt, round: nat, crates: seq<Release>, out: set<string>)
    ensures forall c | c in Retain(attempt, round, crates, out).0 :: c.publish
    decreases |crates|
  {
    if crates != [] {
      var c := crates[0];
      RetainPublished(attempt, round, crates[1..], if c.publish && attempt(round, c, out) then out + {c.name} else out);
    }
  }

  /** A crate stays if and only if it is to be published and is not out: one that failed is not on the
      registry, and one that did not is not tried again. */
  lemma {:induction false} RetainSplits(attempt: Attempt, round: nat, crates: seq<Release>, out: set<string>,
          d: Release)
    requires DistinctReleases(crates) && Names(crates) !! out && d in crates
    ensures var (rest, out') := Retain(attempt, round, crates, out);
            d in rest <==> d.publish && d.name !in out'
    decreases |crates|
  {
    var c, tail := crates[0], crates[1..];
    assert crates == [c] + tail;
    var out1 := if c.publish && attempt(round, c, out) then out + {c.name} else out;
    var (rest, out') := Retain(attempt, round, tail, out1);
    RetainKeeps(attempt, round, tail, out1);
    RetainPublished(attempt, round, tail, out1);
    SubsequenceIn(rest, tail);
    assert forall x | x in Names(tail) :: x in Names(crates);
    assert c.publish ==> c.name in Names(crates) && c.name !in Names(tail);
    if d in tail {
      RetainSplits(attempt, round, tail, out1, d);
    }
  }

  lemma {:induction false} SubsequenceIn(a: seq<Release>, b: seq<Release>)
    requires Subsequence(a, b)
    ensures forall c | c in a :: c in b
    decreases |b|
  {
    if a != [] {
      if a[0] == b[0] && Subsequence(a[1..], b[1..]) {
        SubsequenceIn(a[1..], b[1..]);
        assert a == [a[0]] + a[1..];
      } else {
        SubsequenceIn(a, b[1..]);
      }
    }
  }

  lemma SortedCons(c: Release, crates: seq<Release>, out: set<string>)
    requires c.publish && c.deps <= out && Sorted(crates, out + {c.name})
    ensures Sorted([c] + crates, out)
  {
    var longer := [c] + crates;
    forall i | 0 <= i < |longer| && longer[i].publish
      ensures longer[i].deps <= out + Names(longer[..i])
    {
      if i > 0 {
        assert longer[..i] == [c] + crates[..i - 1];
        assert Names(longer[..i]) == Names(crates[..i - 1]) + {c.name};
        assert crates[i - 1].deps <= out + {c.name} + Names(crates[..i - 1]);
      }
    }
  }

  /** Whatever fails, the list stays sorted for the next round; `held` are the crates before it that
      have failed already. */
  lemma {:induction false} RetainSorted(attempt: Attempt, round: nat, crates: seq<Release>, out: set<string>,
          held: set<string>)
    requires Sorted(crates, out + held)
    ensures var (rest, out') := Retain(attempt, round, crates, out); Sorted(rest, out' + held)
    decreases |crates|
  {
    if crates != [] {
      var c, tail := crates[0], crates[1..];
      if !c.publish {
        SortedTail(crates, out + held, out + held);
        RetainSorted(attempt, round, tail, out, held);
      } else if attempt(round, c, out) {
        SortedTail(crates, out + held, out + {c.name} + held);
        RetainSorted(attempt, round, tail, out + {c.name}, held);
      } else {
        SortedTail(crates, out + held, out + (held + {c.name}));
        RetainSorted(attempt, round, tail, out, held + {c.name});
        RetainKeeps(attempt, round, tail, out);
        var (rest, out') := Retain(attempt, round, tail, out);
        assert crates[..0] == [] && c.deps <= out + held;
        assert out' + (held + {c.name}) == out' + held + {c.name};
        SortedCons(c, rest, out' + held);
      }
    }
  }

  /** A round without other failures publishes everything that is left. */
  lemma {:induction false} FailureFreeEmpties(attempt: Attempt, round: nat, crates: seq<Release>, out: set<string>)
    requires FailureFree(attempt, round) && Sorted(crates, out)
    ensures Retain(attempt, round, crates, out).0 == []
    decreases |crates|
  {
    if crates != [] {
      assert crates[..0] == [];
      SortedTail(crates, out, if crates[0].publish then out + {crates[0].name} else out);
      FailureFreeEmpties(attempt, round, crates[1..], if crates[0].publish then out + {crates[0].name} else out);
    }
  }

  const ROUNDS: nat := 10

  /** What is left, and what is out, before each round. */
  function Rounds(attempt: Attempt, crates: seq<Release>, out: set<string>, n: nat): (r: (seq<Release>, set<string>)) {
    if n == 0 then (crates, out)
    else var (left, out') := Rounds(attempt, crates, out, n - 1); Retain(attempt, n - 1, left, out')
  }

  lemma {:induction false} RoundsKeep(attempt: Attempt, crates: seq<Release>, out: set<string>, n: nat)
    requires Sorted(crates, out)
    ensures var (left, out') := Rounds(attempt, crates, out, n);
            && Sorted(left, out')
            && out <= out' <= out + Names(crates)
            && out + Names(crates) == out' + Names(left)
  {
    if n > 0 {
      RoundsKeep(attempt, crates, out, n - 1);
      var (left, out') := Rounds(attempt, crates, out, n - 1);
      assert out' + {} == out';
      RetainSorted(attempt, n - 1, left, out', {});
      RetainKeeps(attempt, n - 1, left, out');
      var (left2, out2) := Retain(attempt, n - 1, left, out');
      assert out2 + {} == out2;
    }
  }

  lemma {:induction false} EmptyStays(attempt: Attempt, crates: seq<Release>, out: set<string>, m: nat, n: nat)
    requires m <= n && Rounds(attempt, crates, out, m).0 == []
    ensures Rounds(attempt, crates, out, n) == Rounds(attempt, crates, out, m)
  {
    if m < n {
      EmptyStays(attempt, crates, out, m, n - 1);
    }
  }

  /** The `publish` command.  For a list sorted by dependencies, one failure-free round among the ten
      is enough for the final assertion to hold, whatever happens in the others; and it holds only
      with every crate to be published out on the registry. */
  method PublishAll(attempt: Attempt, crates: seq<Release>, out: set<string>) returns (ok: bool, out': set<string>)
    requires Sorted(crates, out)
    ensures ok ==> out' == out + Names(crates)
    ensures (exists r | 0 <= r < ROUNDS :: FailureFree(attempt, r)) ==> ok
    ensures ok <==> Rounds(attempt, crates, out, ROUNDS).0 == []
  {
    var left := crates;
    out' := out;
    var i := 0;
    RoundsKeep(attempt, crates, out, 0);
    while i < ROUNDS
      invariant i <= ROUNDS && (left, out') == Rounds(attempt, crates, out, i)
      invariant forall r | 0 <= r < i :: !FailureFree(attempt, r)
    {
      RoundsKeep(attempt, crates, out, i);
      if FailureFree(attempt, i) {
        FailureFreeEmpties(attempt, i, left, out');
      }
      left, out' := RetainAll(attempt, i, left, out');
      i := i + 1;
      if left == [] {
        EmptyStays(attempt, crates, out, i, ROUNDS);
        break;
      }
    }
    RoundsKeep(attempt, crates, out, i);
    ok := left == [];
  }

  /** `Vec::retain`: one attempt for each crate in order. */
  method RetainAll(attempt: Attempt, round: nat, crates: seq<Release>, out: set<string>)
    returns (left: seq<Release>, out': set<string>)
    ensures (left, out') == Retain(attempt, round, crates, out)
  {
    left, out' := [], out;
    assert crates[0..] == crates && [] + Retain(attempt, round, crates, out).0 == Retain(attempt, round, crates, out).0;
    for i := 0 to |crates|
      invariant var (rest, end) := Retain(attempt, round, crates[i..], out');
                Retain(attempt, round, crates, out) == (left + rest, end)
    {
      var c := crates[i];
      assert crates[i..][0] == c && crates[i..][1..] == crates[i + 1..];
      ghost var rest := Retain(attempt, round, crates[i..], out').0;
      if c.publish {
        if attempt(round, c, out') {
          out' := out' + {c.name};
        } else {
          assert left + ([c] + rest[1..]) == left + [c] + rest[1..];
          left := left + [c];
        }
      }
    }
    assert left + [] == left;
  }

  // ----- the order

  /** The position of a name in the list of crates to publish: the last one, and below all positions
      for a name not in it. */
  function Position(list: seq<string>, name: string): (p: int)
    ensures -1 <= p < |list|
    ensures p >= 0 ==> list[p] == name
    ensures p < 0 <==> name !in list
  {
    if list == [] then -1
    else if list[|list| - 1] == name then |list| - 1
    else Position(list[..|list| - 1], name)
  }

  /** Crates in order of position are sorted by dependencies, if the list is: every dependency is
      listed before its dependents and is among the crates. */
  lemma SortedByPosition(list: seq<string>, crates: seq<Release>)
    requires forall i, j | 0 <= i < j < |crates| :: Position(list, crates[i].name) <= Position(list, crates[j].name)
    requires forall c, d | c in crates && c.publish && d in c.deps ::
               d in Names(crates) && Position(list, d) < Position(list, c.name)
    ensures Sorted(crates, {})
  {
    forall i, d | 0 <= i < |crates| && crates[i].publish && d in crates[i].deps
      ensures d in Names(crates[..i])
    {
      assert crates[i] in crates && d in Names(crates);
      var e :| e in crates && e.publish && e.name == d;
      var j :| 0 <= j < |crates| && crates[j] == e;
      assert j < i;
      assert crates[..i][j] == e;
    }
  }
}

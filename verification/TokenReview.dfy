/** Settings of the Kubernetes authenticator (internal/auth/config.go). Durations are in nanoseconds. */
module AuthConfig {
  import opened Text

  const MILLISECOND := 1_000_000
  const SECOND := 1_000 * MILLISECOND
  const MINUTE := 60 * SECOND

  datatype Config = Config(
    includeCluster: bool,
    trustClusterExtra: bool,
    clusterName: string,
    audiences: seq<string>,
    requestTimeout: int,
    cacheTTL: int,
    tokenFile: string,
    endpointValid: bool)  // the verdict of validEndpoint, which rests on net/url

  /** A single CSV-safe segment of a qualified name. */
  predicate ValidClusterName(name: string) {
    name != "" && forall c :: c in name ==> !IsSpace(c) && !IsControl(c) && c !in ['/', '\\', ',']
  }

  /** Config.Validate: the settings with the default timeout filled in, or the complaint. */
  function Validate(c: Config): Result<Config, string> {
    var timeout := if c.requestTimeout == 0 then 5 * SECOND else c.requestTimeout;
    if c.audiences == [] then Failure("audience required")
    else if exists a :: a in c.audiences && (TrimSpace(a) != a || a == "") then Failure("malformed audience")
    else if timeout < MILLISECOND || timeout > MINUTE then Failure("request timeout out of range")
    else if c.cacheTTL < 0 || c.cacheTTL > MINUTE then Failure("cache TTL out of range")
    else if c.clusterName != "" && !ValidClusterName(c.clusterName) then Failure("malformed cluster name")
    else if c.includeCluster && !c.trustClusterExtra && c.clusterName == "" then Failure("cluster name required")
    else if c.trustClusterExtra && c.clusterName != "" then Failure("cluster name conflicts")
    else if c.tokenFile == "" then Failure("token file required")
    else if !c.endpointValid then Failure("endpoint refused")
    else Success(c.(requestTimeout := timeout))
  }

  predicate UsableName(name: string) {
    name != "" && forall c :: c in name ==> !IsSpace(c) && !IsControl(c) && c != '/' && c != '\\' && c != ','
  }

  lemma UsableNameExactly(name: string)
    ensures ValidClusterName(name) <==> UsableName(name)
  {
    hide IsSpace, IsControl;
  }

  lemma AudiencesExactly(audiences: seq<string>)
    ensures (exists a :: a in audiences && (TrimSpace(a) != a || a == "")) <==>
              exists a :: a in audiences && (a == "" || IsSpace(a[0]) || IsSpace(a[|a| - 1]))
  {
    hide TrimSpace, IsSpace;
    forall a ensures TrimSpace(a) == a <==> a == "" || (!IsSpace(a[0]) && !IsSpace(a[|a| - 1])) {
      TrimSpaceFixes(a);
    }
  }

  /** The settings that can be run with, each rule on its own; an unset timeout means five seconds. */
  lemma ValidatesExactly(c: Config)
    ensures Validate(c).Success? <==>
              && c.audiences != []
              && !(exists a :: a in c.audiences && (a == "" || IsSpace(a[0]) || IsSpace(a[|a| - 1])))
              && (c.requestTimeout == 0 || 1_000_000 <= c.requestTimeout <= 60_000_000_000)
              && 0 <= c.cacheTTL <= 60_000_000_000
              && (c.clusterName == "" || UsableName(c.clusterName))
              && (c.includeCluster ==> c.trustClusterExtra || c.clusterName != "")
              && (c.trustClusterExtra ==> c.clusterName == "")
              && c.tokenFile != "" && c.endpointValid
    ensures Validate(c).Success? ==>
              Validate(c).value == c.(requestTimeout := if c.requestTimeout == 0 then 5_000_000_000 else c.requestTimeout)
  {
    hide TrimSpace, IsSpace, UsableName, ValidClusterName;
    AudiencesExactly(c.audiences);
    UsableNameExactly(c.clusterName);
  }

  predicate Accepted(c: Config) {
    Validate(c) == Success(c)
  }
}

/** The groups header of internal/api/api.go: one line of comma-separated names. */
module GroupsHeader {
  import opened Text

  /** A name that survives the trip through the header. */
  predicate CsvSafe(g: string) {
    g != "" && TrimSpace(g) == g && ',' !in g
  }

  function KeptParts(parts: seq<string>): seq<string> {
    if parts == [] then []
    else
      var g := TrimSpace(parts[|parts| - 1]);
      KeptParts(parts[..|parts| - 1]) + (if g == "" then [] else [g])
  }

  function SplitGroups(header: string): seq<string> {
    if header == "" then [] else KeptParts(Split(header, ','))
  }

  method SplitGroupsLoop(header: string) returns (groups: seq<string>)
    ensures groups == SplitGroups(header)
    ensures forall segs :: Spells(segs, header) ==> groups == NamesIn(segs)
  {
    forall segs | Spells(segs, header) ensures SplitGroups(header) == NamesIn(segs) {
      PaddedNamesAreKept(segs);
    }
    hide Spells;
    if header == "" {
      return [];
    }
    var parts := Split(header, ',');
    groups := [];
    for i := 0 to |parts|
      invariant groups == KeptParts(parts[..i])
    {
      var g := TrimSpace(parts[i]);
      if g != "" {
        groups := groups + [g];
      }
      assert parts[..i + 1][..i] == parts[..i];
    }
    assert parts[..|parts|] == parts;
  }

  lemma KeptPartsGrow(parts: seq<string>, last: string)
    requires CsvSafe(last)
    ensures KeptParts(parts + [last]) == KeptParts(parts) + [last]
  {
    hide TrimSpace;
    assert (parts + [last])[..|parts|] == parts;
  }

  lemma {:induction false} SafePartsAreKept(parts: seq<string>)
    requires forall p :: p in parts ==> CsvSafe(p)
    ensures KeptParts(parts) == parts
  {
    hide TrimSpace, CsvSafe;
    if parts != [] {
      var init, last := parts[..|parts| - 1], parts[|parts| - 1];
      SafePartsAreKept(init);
      KeptPartsGrow(init, last);
      assert init + [last] == parts;
    }
  }

  lemma {:induction false} SplitPartsHaveNoSeparator(s: string, sep: char)
    ensures forall p :: p in Split(s, sep) ==> sep !in p
  {
    if s != "" {
      SplitPartsHaveNoSeparator(s[1..], sep);
    }
  }

  lemma {:induction false} TrimSpaceIsIdempotent(s: string)
    ensures TrimSpace(TrimSpace(s)) == TrimSpace(s)
    ensures forall c :: c in TrimSpace(s) ==> c in s
  {
    TrimLeftEnds(s);
    TrimRightEnds(TrimLeft(s));
    TrimSpaceFixes(TrimSpace(s));
  }

  lemma {:induction false} TrimLeftEnds(s: string)
    ensures var t := TrimLeft(s); (t != "" ==> !IsSpace(t[0])) && forall c :: c in t ==> c in s
  {
    if s != "" && IsSpace(s[0]) {
      TrimLeftEnds(s[1..]);
    }
  }

  lemma {:induction false} TrimRightEnds(s: string)
    ensures var t := TrimRight(s); t <= s && (t != "" ==> !IsSpace(t[|t| - 1]))
  {
    if s != "" && IsSpace(s[|s| - 1]) {
      TrimRightEnds(s[..|s| - 1]);
    }
  }

  lemma {:induction false} KeptPartsAreSafe(parts: seq<string>)
    requires forall p :: p in parts ==> ',' !in p
    ensures forall g :: g in KeptParts(parts) ==> CsvSafe(g)
  {
    if parts != [] {
      KeptPartsAreSafe(parts[..|parts| - 1]);
      TrimSpaceIsIdempotent(parts[|parts| - 1]);
    }
  }

  /** Writing groups as CSV and splitting again is lossless for safe names and for no others. */
  lemma CsvIsLosslessExactly(groups: seq<string>)
    ensures SplitGroups(Join(groups, ',')) == groups <==> forall g :: g in groups ==> CsvSafe(g)
  {
    var header := Join(groups, ',');
    if forall g :: g in groups ==> CsvSafe(g) {
      if groups != [] {
        SplitUndoesJoin(groups, ',');
        SafePartsAreKept(groups);
        assert header != "" by { assert CsvSafe(groups[0]); }
      }
    } else {
      SplitPartsHaveNoSeparator(header, ',');
      KeptPartsAreSafe(Split(header, ','));
    }
  }

  // ---- The split in terms of the header alone ----

  /** One segment of a header: a name, or nothing, with white space around it. */
  datatype Segment = Segment(before: string, name: string, after: string)

  predicate Padded(seg: Segment) {
    AllSpace(seg.before) && AllSpace(seg.after) && Tight(seg.name) && ',' !in seg.name
  }

  function TextOf(segs: seq<Segment>): seq<string> {
    seq(|segs|, i requires 0 <= i < |segs| => segs[i].before + segs[i].name + segs[i].after)
  }

  /** The names among the segments, in order. */
  function NamesIn(segs: seq<Segment>): seq<string> {
    if segs == [] then []
    else NamesIn(segs[..|segs| - 1]) + (if segs[|segs| - 1].name == "" then [] else [segs[|segs| - 1].name])
  }

  lemma {:induction false} PaddedPartsAreKept(segs: seq<Segment>)
    requires forall s :: s in segs ==> Padded(s)
    ensures KeptParts(TextOf(segs)) == NamesIn(segs)
  {
    hide TrimSpace, Padded;
    if segs != [] {
      var init, last := segs[..|segs| - 1], segs[|segs| - 1];
      assert last in segs;
      PaddedPartsAreKept(init);
      PaddedTrims(last);
      assert TextOf(segs)[..|segs| - 1] == TextOf(init);
    }
  }

  lemma PaddedTrims(seg: Segment)
    requires Padded(seg)
    ensures TrimSpace(seg.before + seg.name + seg.after) == seg.name
    ensures ',' !in seg.before + seg.name + seg.after
  {
    TrimSpaceDropsPadding(seg.before, seg.name, seg.after);
    assert !IsSpace(',');
  }

  /** Names survive with any white space around them and any number of empty or white segments between
      them, in order. */
  lemma PaddedNamesAreKept(segs: seq<Segment>)
    requires forall s :: s in segs ==> Padded(s)
    ensures SplitGroups(Join(TextOf(segs), ',')) == NamesIn(segs)
  {
    hide TrimSpace, Padded;
    var header := Join(TextOf(segs), ',');
    forall t | t in TextOf(segs) ensures ',' !in t {
      var i :| 0 <= i < |segs| && TextOf(segs)[i] == t;
      PaddedTrims(segs[i]);
    }
    if segs != [] {
      SplitUndoesJoin(TextOf(segs), ',');
      PaddedPartsAreKept(segs);
      if header == "" {
        EmptyHasNoNames();
      }
    }
  }

  lemma EmptyHasNoNames()
    ensures KeptParts(Split("", ',')) == []
  {
    assert Split("", ',') == [""];
    assert TrimSpace("") == "";
    assert [""][..0] == [];
  }

  lemma {:induction false} JoinUndoesSplit(s: string, sep: char)
    ensures Join(Split(s, sep), sep) == s
  {
    if s != "" {
      JoinUndoesSplit(s[1..], sep);
      var rest := Split(s[1..], sep);
      if s[0] == sep {
        assert Split(s, sep)[1..] == rest;
        assert "" + [sep] + Join(rest, sep) == [sep] + s[1..];
      } else {
        assert Split(s, sep)[1..] == rest[1..];
        assert |rest| > 1 ==> ([s[0]] + rest[0]) + [sep] + Join(rest[1..], sep) == [s[0]] + (rest[0] + [sep] + Join(rest[1..], sep));
      }
    }
  }

  lemma {:induction false} SegmentsOf(parts: seq<string>) returns (segs: seq<Segment>)
    requires forall p :: p in parts ==> ',' !in p
    ensures (forall s :: s in segs ==> Padded(s)) && TextOf(segs) == parts
  {
    hide TrimSpace;
    segs := [];
    if parts != [] {
      var last := parts[|parts| - 1];
      var init := SegmentsOf(parts[..|parts| - 1]);
      var before, after := TrimSpacePads(last);
      var name := TrimSpace(last);
      assert forall c :: c in name ==> c in last;
      segs := init + [Segment(before, name, after)];
    }
  }

  ghost predicate Spells(segs: seq<Segment>, header: string) {
    (forall s :: s in segs ==> Padded(s)) && Join(TextOf(segs), ',') == header
  }

  /** Every header is of that form, so the lemma above says what every header stands for. */
  lemma EveryHeaderIsPadded(header: string) returns (segs: seq<Segment>)
    ensures Spells(segs, header) && SplitGroups(header) == NamesIn(segs)
  {
    SplitPartsHaveNoSeparator(header, ',');
    segs := SegmentsOf(Split(header, ','));
    JoinUndoesSplit(header, ',');
    PaddedNamesAreKept(segs);
  }

  /** g is one of the names in a header. */
  ghost predicate NamedIn(header: string, g: string) {
    g != "" && exists segs, seg: Segment :: Spells(segs, header) && seg in segs && seg.name == g
  }

  lemma {:induction false} NamesInExactly(segs: seq<Segment>, g: string)
    ensures g in NamesIn(segs) <==> g != "" && exists seg :: seg in segs && seg.name == g
  {
    if segs != [] {
      NamesInExactly(segs[..|segs| - 1], g);
    }
  }

  /** The groups of a header are the names in it. */
  lemma SplitNamesExactly(header: string, g: string)
    ensures g in SplitGroups(header) <==> NamedIn(header, g)
  {
    hide SplitGroups, NamesIn, Padded, Join, TextOf;
    if NamedIn(header, g) {
      var segs, seg: Segment :| Spells(segs, header) && seg in segs && seg.name == g;
      PaddedNamesAreKept(segs);
      NamesInExactly(segs, g);
    }
    if g in SplitGroups(header) {
      var segs := EveryHeaderIsPadded(header);
      NamesInExactly(segs, g);
      var seg :| seg in segs && seg.name == g;
      assert Spells(segs, header);
    }
  }
}

/** What the endpoint's reply means (review in internal/auth/kubernetes.go). */
module TokenReview {
  import opened Text
  import opened AuthConfig
  import opened GroupsHeader

  const CLUSTER_EXTRA_KEY := "authentication.kubernetes.io/cluster-name"

  datatype Principal = Principal(identity: string, groups: seq<string>)

  datatype AuthError = Unauthenticated | Unavailable

  type Outcome = Result<Principal, AuthError>

  /** NoStatus stands for an unreadable token file, a transport failure, a non-success
      answer, an oversized or malformed body, and a body without a status. */
  datatype Reply =
    | NoStatus
    | Status(
        authenticated: bool,
        audiences: seq<string>,
        username: string,
        groups: seq<string>,
        extra: map<string, seq<string>>,
        error: string)

  predicate AmbiguousGroup(g: string) {
    g == "" || TrimSpace(g) != g || ContainsAny(g, ",\r\n\0")
  }

  /** The cluster that the reply belongs to; None when trusted metadata is missing or malformed. */
  function ClusterOf(cfg: Config, reply: Reply): Option<string>
    requires reply.Status?
  {
    if !cfg.trustClusterExtra then Some(cfg.clusterName)
    else
      var names := if CLUSTER_EXTRA_KEY in reply.extra then reply.extra[CLUSTER_EXTRA_KEY] else [];
      if |names| != 1 || !ValidClusterName(names[0]) then None else Some(names[0])
  }

  function Qualify(cluster: string, name: string): string {
    cluster + "/" + name
  }

  function QualifyAll(cluster: string, names: seq<string>): seq<string> {
    seq(|names|, i requires 0 <= i < |names| => Qualify(cluster, names[i]))
  }

  /** The decision on a reply: lines 186 to 218 of the source file. */
  function Decide(cfg: Config, reply: Reply): Outcome {
    match reply
    case NoStatus => Failure(Unavailable)
    case Status(authenticated, audiences, username, groups, _, error) =>
      if exists g :: g in groups && AmbiguousGroup(g) then Failure(Unauthenticated)
      else if !authenticated || error != "" || username == "" || ContainsAny(username, "\r\n\0") then
        Failure(Unauthenticated)
      else if !exists a :: a in audiences && a in cfg.audiences then Failure(Unauthenticated)
      else
        var cluster := ClusterOf(cfg, reply);
        if cluster.None? then Failure(Unauthenticated)
        else if cfg.includeCluster then
          Success(Principal(Qualify(cluster.value, username), QualifyAll(cluster.value, groups)))
        else Success(Principal(username, groups))
  }

  /** A group name that is not ambiguous in the CSV form. */
  predicate PlainGroup(g: string) {
    g != "" && !IsSpace(g[0]) && !IsSpace(g[|g| - 1]) && forall c :: c in g ==> c != ',' && c != '\r' && c != '\n' && c != '\0'
  }

  /** The cluster that a reply's names are qualified with, when there is a usable one. */
  predicate UsableCluster(cfg: Config, reply: Reply, cluster: string)
    requires reply.Status?
  {
    if cfg.trustClusterExtra then
      && "authentication.kubernetes.io/cluster-name" in reply.extra
      && reply.extra["authentication.kubernetes.io/cluster-name"] == [cluster]
      && UsableName(cluster)
    else cluster == cfg.clusterName
  }

  /** What a reply must say for its caller to be let in, field by field. */
  ghost predicate ReplyGrants(cfg: Config, reply: Reply) {
    && reply.Status?
    && reply.authenticated && reply.error == ""
    && reply.username != "" && (forall c :: c in reply.username ==> c != '\r' && c != '\n' && c != '\0')
    && (exists a :: a in reply.audiences && a in cfg.audiences)
    && (forall g :: g in reply.groups ==> PlainGroup(g))
    && (exists cluster :: UsableCluster(cfg, reply, cluster))
  }

  lemma AmbiguousExactly(g: string)
    ensures AmbiguousGroup(g) <==> !PlainGroup(g)
  {
    hide TrimSpace;
    TrimSpaceFixes(g);
    assert forall c :: c in ",\r\n\0" <==> c in [',', '\r', '\n', '\0'];
  }

  lemma ClusterExactly(cfg: Config, reply: Reply)
    requires reply.Status?
    ensures forall cluster :: UsableCluster(cfg, reply, cluster) <==> ClusterOf(cfg, reply) == Some(cluster)
  {
    hide UsableName, ValidClusterName;
    forall cluster ensures ValidClusterName(cluster) <==> UsableName(cluster) {
      UsableNameExactly(cluster);
    }
  }

  /** p is the reply's user with the reply's groups, in order, the usable cluster in front of each name
      if the configuration asks for that. */
  ghost predicate Bears(cfg: Config, reply: Reply, p: Principal)
    requires reply.Status?
  {
    exists cluster :: UsableCluster(cfg, reply, cluster) && IsNamed(cfg, reply, cluster, p)
  }

  predicate IsNamed(cfg: Config, reply: Reply, cluster: string, p: Principal)
    requires reply.Status?
  {
    && p.identity == (if cfg.includeCluster then cluster + "/" + reply.username else reply.username)
    && |p.groups| == |reply.groups|
    && forall i :: 0 <= i < |p.groups| ==>
         p.groups[i] == if cfg.includeCluster then cluster + "/" + reply.groups[i] else reply.groups[i]
  }

  /** The verdict, field by field: a caller is let in if and only if the reply grants it, as the principal
      that the reply bears; a reply without a status is no verdict, and any other failing condition is a
      refusal. */
  lemma DecidesExactly(cfg: Config, reply: Reply)
    ensures Decide(cfg, reply).Success? <==> ReplyGrants(cfg, reply)
    ensures forall p :: Decide(cfg, reply) == Success(p) <==> ReplyGrants(cfg, reply) && Bears(cfg, reply, p)
    ensures Decide(cfg, reply) == Failure(Unavailable) <==> reply.NoStatus?
    ensures Decide(cfg, reply) == Failure(Unauthenticated) <==> reply.Status? && !ReplyGrants(cfg, reply)
  {
    hide AmbiguousGroup, PlainGroup, UsableCluster, ClusterOf, IsNamed;
    if reply.Status? {
      forall g ensures AmbiguousGroup(g) <==> !PlainGroup(g) {
        AmbiguousExactly(g);
      }
      ClusterExactly(cfg, reply);
      UserNameExactly(reply.username);
      forall p ensures Decide(cfg, reply) == Success(p) <==> ReplyGrants(cfg, reply) && Bears(cfg, reply, p) {
        if ClusterOf(cfg, reply).Some? {
          NamedExactly(cfg, reply, ClusterOf(cfg, reply).value, p);
        }
      }
    }
  }

  lemma NamedExactly(cfg: Config, reply: Reply, cluster: string, p: Principal)
    requires reply.Status?
    ensures IsNamed(cfg, reply, cluster, p) <==>
              p == if cfg.includeCluster then Principal(Qualify(cluster, reply.username), QualifyAll(cluster, reply.groups))
                   else Principal(reply.username, reply.groups)
  {
    var q := if cfg.includeCluster then Principal(Qualify(cluster, reply.username), QualifyAll(cluster, reply.groups))
             else Principal(reply.username, reply.groups);
    assert IsNamed(cfg, reply, cluster, q);
    if IsNamed(cfg, reply, cluster, p) {
      assert p.groups == q.groups;
    }
  }

  lemma UserNameExactly(name: string)
    ensures ContainsAny(name, "\r\n\0") <==> exists c :: c in name && (c == '\r' || c == '\n' || c == '\0')
  {
    assert forall c :: c in "\r\n\0" <==> c in ['\r', '\n', '\0'];
  }

  /** An accepted configuration never leaves a qualified name without a usable cluster. */
  lemma QualifyingClusterIsValid(cfg: Config, reply: Reply)
    requires Accepted(cfg) && cfg.includeCluster
    requires Decide(cfg, reply).Success?
    ensures ClusterOf(cfg, reply).Some? && ValidClusterName(ClusterOf(cfg, reply).value)
  {
  }

  lemma QualifiedGroupIsSafe(cluster: string, g: string)
    requires ValidClusterName(cluster) && CsvSafe(g)
    ensures CsvSafe(Qualify(cluster, g))
  {
    TrimSpaceFixes(g);
    var q := Qualify(cluster, g);
    assert q[0] in cluster && q[|q| - 1] == g[|g| - 1];
    TrimSpaceFixes(q);
  }

  /** Every group of a granted principal keeps its identity in the CSV form that scripts,
      values URLs and the queue receive, whether or not names are qualified. */
  lemma GrantedGroupsSurviveCsv(cfg: Config, reply: Reply)
    requires Accepted(cfg)
    requires Decide(cfg, reply).Success?
    ensures var p := Decide(cfg, reply).value; SplitGroups(Join(p.groups, ',')) == p.groups
  {
    var p := Decide(cfg, reply).value;
    forall g | g in reply.groups ensures CsvSafe(g) {
      assert !AmbiguousGroup(g);
      assert ',' in g ==> ',' in ",\r\n\0" && ContainsAny(g, ",\r\n\0");
    }
    if cfg.includeCluster {
      var cluster := ClusterOf(cfg, reply).value;
      forall i | 0 <= i < |p.groups| ensures CsvSafe(p.groups[i]) {
        assert reply.groups[i] in reply.groups;
        QualifiedGroupIsSafe(cluster, reply.groups[i]);
      }
    }
    CsvIsLosslessExactly(p.groups);
  }

  /** The cluster and the name can be read back from a qualified name, so callers of
      different clusters or with different names never share an identity. */
  lemma QualifiedIdentityIsUnique(cfg: Config, r1: Reply, r2: Reply)
    requires Accepted(cfg) && cfg.includeCluster
    requires Decide(cfg, r1).Success? && Decide(cfg, r2).Success?
    ensures Decide(cfg, r1).value.identity == Decide(cfg, r2).value.identity
       <==> ClusterOf(cfg, r1) == ClusterOf(cfg, r2) && r1.username == r2.username
  {
    QualifyingClusterIsValid(cfg, r1);
    QualifyingClusterIsValid(cfg, r2);
    var c1, c2 := ClusterOf(cfg, r1).value, ClusterOf(cfg, r2).value;
    if Qualify(c1, r1.username) == Qualify(c2, r2.username) {
      assert '/' !in c1 && '/' !in c2;
      CutIsUnique(c1, r1.username, c2, r2.username, '/');
    }
  }

  /** The same for groups: equal qualified lists come from equal clusters and equal lists. */
  lemma QualifiedGroupsAreUnique(cfg: Config, r1: Reply, r2: Reply)
    requires Accepted(cfg) && cfg.includeCluster
    requires Decide(cfg, r1).Success? && Decide(cfg, r2).Success?
    requires Decide(cfg, r1).value.groups == Decide(cfg, r2).value.groups
    ensures r1.groups == r2.groups
    ensures r1.groups != [] ==> ClusterOf(cfg, r1) == ClusterOf(cfg, r2)
  {
    QualifyingClusterIsValid(cfg, r1);
    QualifyingClusterIsValid(cfg, r2);
    var c1, c2 := ClusterOf(cfg, r1).value, ClusterOf(cfg, r2).value;
    assert '/' !in c1 && '/' !in c2;
    var q1, q2 := QualifyAll(c1, r1.groups), QualifyAll(c2, r2.groups);
    assert |r1.groups| == |q1| == |q2| == |r2.groups|;
    forall i | 0 <= i < |r1.groups| ensures c1 == c2 && r1.groups[i] == r2.groups[i] {
      assert q1[i] == q2[i];
      CutIsUnique(c1, r1.groups[i], c2, r2.groups[i], '/');
    }
    if r1.groups != [] {
      assert r1.groups[0] == r2.groups[0] && c1 == c2;
    }
  }
}

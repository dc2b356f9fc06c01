/** Layer lists: canonical image references, deduplication and the cache key. */
module Layers {
  import opened Wrappers
  import opened KeepLasts

  // ----- Image references -----

  /** First position of c in s, or -1. */
  function Index(s: string, c: char): (i: int)
    ensures -1 <= i < |s|
    ensures i >= 0 ==> s[i] == c && c !in s[..i]
    ensures i < 0 ==> c !in s
  {
    if s == "" then -1
    else if s[0] == c then 0
    else
      var i := Index(s[1..], c);
      assert s == [s[0]] + s[1..];
      if i < 0 then -1 else
        assert s[..i+1] == [s[0]] + s[1..][..i];
        i + 1
  }

  /** Last position of c in s, or -1. */
  function LastIndex(s: string, c: char): (i: int)
    ensures -1 <= i < |s|
    ensures i >= 0 ==> s[i] == c && c !in s[i+1..]
    ensures i < 0 ==> c !in s
  {
    if s == "" then -1
    else if s[|s|-1] == c then |s| - 1
    else
      var i := LastIndex(s[..|s|-1], c);
      assert s == s[..|s|-1] + [s[|s|-1]];
      assert i >= 0 ==> s[i+1..] == s[..|s|-1][i+1..] + [s[|s|-1]];
      i
  }

  const DEFAULT_REGISTRY := "registry-1.docker.io"

  /** Looks like a registry host. */
  predicate HostLike(s: string) {
    '.' in s || ':' in s || s == "localhost"
  }

  datatype Reference = Reference(registry: string, repository: string, tag: string)

  function WithoutDigest(ref: string): string {
    var i := Index(ref, '@');
    if i >= 0 then ref[..i] else ref
  }

  /** The name and the tag: the text after the last ':' unless that holds a '/'. */
  function SplitTag(s: string): (string, string) {
    var i := LastIndex(s, ':');
    if i >= 0 && '/' !in s[i+1..] then (s[..i], s[i+1..]) else (s, "latest")
  }

  /** The registry and the rest: the text before the first '/' if it looks like a host. */
  function SplitRegistry(s: string): (string, string) {
    var i := Index(s, '/');
    if i >= 0 && HostLike(s[..i]) then (s[..i], s[i+1..]) else (DEFAULT_REGISTRY, s)
  }

  function Parse(ref: string): Reference {
    var (name, tag) := SplitTag(WithoutDigest(ref));
    var (registry, repository) := SplitRegistry(name);
    Reference(registry,
              if registry == DEFAULT_REGISTRY && '/' !in repository then "library/" + repository else repository,
              tag)
  }

  function Render(r: Reference): string {
    r.registry + "/" + r.repository + ":" + r.tag
  }

  function NormalizeImageRef(ref: string): string {
    var (name, tag) := SplitTag(WithoutDigest(ref));
    var (registry, repository) := SplitRegistry(name);
    if registry == DEFAULT_REGISTRY && '/' !in repository then registry + "/library/" + repository + ":" + tag
    else registry + "/" + repository + ":" + tag
  }

  /** References that parsing can produce. */
  predicate Canonical(r: Reference) {
    && '/' !in r.tag && ':' !in r.tag && '@' !in r.tag
    && '@' !in r.repository
    && '/' !in r.registry && '@' !in r.registry && HostLike(r.registry)
    && (r.registry == DEFAULT_REGISTRY ==> '/' in r.repository)
  }

  lemma InConcat(a: string, b: string, c: char)
    ensures c in a + b <==> c in a || c in b
  {
  }

  /** A character that no built-in part of a reference has. */
  predicate Foreign(c: char) {
    c !in "latest" && c !in DEFAULT_REGISTRY && c !in "library/"
  }

  lemma ForeignChars()
    ensures Foreign('@') && Foreign('\n')
  {
  }

  lemma SplitTagParts(s: string, c: char)
    ensures var (name, tag) := SplitTag(s);
            && '/' !in tag && ':' !in tag
            && (c !in s && c !in "latest" ==> c !in name && c !in tag)
  {
  }

  lemma SplitRegistryParts(s: string, c: char)
    ensures var (registry, rest) := SplitRegistry(s);
            && '/' !in registry && HostLike(registry)
            && (c !in s && c !in DEFAULT_REGISTRY ==> c !in registry && c !in rest)
  {
    assert DEFAULT_REGISTRY[10] == '.';
  }

  /** What the three parts are made of. */
  lemma ParseParts(ref: string, c: char)
    ensures var r := Parse(ref);
            && '/' !in r.tag && ':' !in r.tag
            && '/' !in r.registry && HostLike(r.registry)
            && (r.registry == DEFAULT_REGISTRY ==> '/' in r.repository)
            && (c !in WithoutDigest(ref) && Foreign(c) ==>
                  c !in r.registry && c !in r.repository && c !in r.tag)
  {
    var (name, tag) := SplitTag(WithoutDigest(ref));
    var (registry, rest) := SplitRegistry(name);
    SplitTagParts(WithoutDigest(ref), c);
    SplitRegistryParts(name, c);
    InConcat("library/", rest, c);
    InConcat("library/", rest, '/');
    assert "library/"[7] == '/';
  }

  lemma RenderShortcut(registry: string, repository: string, tag: string)
    ensures registry + "/library/" + repository + ":" + tag == registry + "/" + ("library/" + repository) + ":" + tag
  {
    assert "/library/" == "/" + "library/";
    assert registry + ("/" + "library/") == registry + "/" + "library/";
  }

  lemma NormalizeIsRender(ref: string)
    ensures NormalizeImageRef(ref) == Render(Parse(ref))
  {
    var (name, tag) := SplitTag(WithoutDigest(ref));
    var (registry, repository) := SplitRegistry(name);
    RenderShortcut(registry, repository, tag);
  }

  lemma ParseCanonical(ref: string)
    ensures Canonical(Parse(ref)) && NormalizeImageRef(ref) == Render(Parse(ref))
  {
    ForeignChars();
    ParseParts(ref, '@');
    NormalizeIsRender(ref);
  }

  lemma {:induction false} IndexIs(s: string, c: char, k: nat)
    requires k < |s| && s[k] == c && c !in s[..k]
    ensures Index(s, c) == k
    decreases |s|
  {
    assert k > 0 ==> s[..k][0] == s[0];
    if s[0] != c {
      assert s[1..][..k-1] == s[..k][1..];
      IndexIs(s[1..], c, k - 1);
    }
  }

  lemma {:induction false} LastIndexIs(s: string, c: char, k: nat)
    requires k < |s| && s[k] == c && c !in s[k+1..]
    ensures LastIndex(s, c) == k
    decreases |s|
  {
    assert k < |s| - 1 ==> s[k+1..][|s| - k - 2] == s[|s|-1];
    if s[|s|-1] != c {
      assert s[..|s|-1][k+1..] == s[k+1..][..|s| - k - 2];
      LastIndexIs(s[..|s|-1], c, k);
    }
  }

  lemma FirstAt(a: string, c: char, b: string)
    requires c !in a
    ensures Index(a + [c] + b, c) == |a|
  {
    assert (a + [c] + b)[..|a|] == a;
    IndexIs(a + [c] + b, c, |a|);
  }

  lemma LastAt(a: string, c: char, b: string)
    requires c !in b
    ensures LastIndex(a + [c] + b, c) == |a|
  {
    assert (a + [c] + b)[|a|+1..] == b;
    LastIndexIs(a + [c] + b, c, |a|);
  }

  lemma SplitTagOf(name: string, tag: string)
    requires ':' !in tag && '/' !in tag
    ensures SplitTag(name + ":" + tag) == (name, tag)
  {
    var s := name + [':'] + tag;
    LastAt(name, ':', tag);
    assert s[..|name|] == name && s[|name|+1..] == tag;
  }

  lemma SplitRegistryOf(registry: string, repository: string)
    requires '/' !in registry && HostLike(registry)
    ensures SplitRegistry(registry + "/" + repository) == (registry, repository)
  {
    var s := registry + ['/'] + repository;
    FirstAt(registry, '/', repository);
    assert s[..|registry|] == registry && s[|registry|+1..] == repository;
  }

  lemma InRender(r: Reference, c: char)
    requires c !in r.registry && c !in r.repository && c !in r.tag && c != '/' && c != ':'
    ensures c !in Render(r)
  {
    InConcat(r.registry, "/", c);
    InConcat(r.registry + "/", r.repository, c);
    InConcat(r.registry + "/" + r.repository, ":", c);
    InConcat(r.registry + "/" + r.repository + ":", r.tag, c);
  }

  /** A canonical reference, printed, parses to itself. */
  lemma ParseRender(r: Reference)
    requires Canonical(r)
    ensures Parse(Render(r)) == r
  {
    InRender(r, '@');
    SplitTagOf(r.registry + "/" + r.repository, r.tag);
    SplitRegistryOf(r.registry, r.repository);
  }

  /** Normalizing is idempotent on every string. */
  lemma NormalizeIdempotent(ref: string)
    ensures NormalizeImageRef(NormalizeImageRef(ref)) == NormalizeImageRef(ref)
  {
    ParseCanonical(ref);
    ParseRender(Parse(ref));
    ParseCanonical(NormalizeImageRef(ref));
  }

  /** Two references normalize equally exactly when registry, repository and tag agree. */
  lemma NormalizeSameIff(a: string, b: string)
    ensures NormalizeImageRef(a) == NormalizeImageRef(b) <==> Parse(a) == Parse(b)
  {
    ParseCanonical(a);
    ParseCanonical(b);
    ParseRender(Parse(a));
    ParseRender(Parse(b));
  }

  /** A digest plays no part. */
  lemma DigestIgnored(ref: string, digest: string)
    requires '@' !in ref
    ensures NormalizeImageRef(ref + "@" + digest) == NormalizeImageRef(ref)
  {
    var s := ref + ['@'] + digest;
    FirstAt(ref, '@', digest);
    assert s[..|ref|] == ref;
    assert WithoutDigest(ref + "@" + digest) == ref == WithoutDigest(ref);
  }

  /** A bare name is an official image of the default registry, tagged "latest" unless told. */
  lemma BareName(name: string, tag: string)
    requires '@' !in name && ':' !in name && '/' !in name
    requires '@' !in tag && ':' !in tag && '/' !in tag
    ensures Parse(name) == Reference(DEFAULT_REGISTRY, "library/" + name, "latest")
    ensures Parse(name + ":" + tag) == Reference(DEFAULT_REGISTRY, "library/" + name, tag)
  {
    InConcat(name, ":", '@');
    InConcat(name + ":", tag, '@');
    SplitTagOf(name, tag);
  }

  /** The text after the last colon holds a slash. */
  lemma PortHidesTag(host: string, port: string, repository: string)
    requires ':' !in repository && ':' !in port
    ensures SplitTag(host + ":" + port + "/" + repository) == (host + ":" + port + "/" + repository, "latest")
  {
    var rest := port + "/" + repository;
    var s := host + [':'] + rest;
    assert host + ":" + port + "/" + repository == s;
    InConcat(port, "/", ':');
    InConcat(port + "/", repository, ':');
    LastAt(host, ':', rest);
    assert s[|host|+1..] == rest && rest[|port|] == '/';
  }

  lemma PortNoDigest(host: string, port: string, repository: string)
    requires '@' !in host && '@' !in port && '@' !in repository
    ensures '@' !in host + ":" + port + "/" + repository
  {
    InConcat(host, ":", '@');
    InConcat(host + ":", port, '@');
    InConcat(host + ":" + port, "/", '@');
    InConcat(host + ":" + port + "/", repository, '@');
  }

  /** A host with a port is a registry, and the port is not taken for a tag. */
  lemma PortIsNotTag(host: string, port: string, repository: string)
    requires '/' !in host && '/' !in port && '@' !in host && '@' !in port
    requires '@' !in repository && ':' !in repository && ':' !in port
    requires host + ":" + port != DEFAULT_REGISTRY
    ensures Parse(host + ":" + port + "/" + repository) == Reference(host + ":" + port, repository, "latest")
  {
    var registry := host + ":" + port;
    InConcat(host, ":", '/');
    InConcat(host + ":", port, '/');
    assert registry[|host|] == ':';
    PortNoDigest(host, port, repository);
    PortHidesTag(host, port, repository);
    SplitRegistryOf(registry, repository);
  }

  // ----- What a reference means, in so many words -----

  /** A name with its host, if it has one. */
  function Named(host: Option<string>, repo: string): string {
    match host
    case None => repo
    case Some(h) => h + "/" + repo
  }

  function WithTag(name: string, tag: Option<string>): string {
    match tag
    case None => name
    case Some(t) => name + ":" + t
  }

  /** A reference as people write it. */
  function Written(host: Option<string>, repo: string, tag: Option<string>, digest: Option<string>): string {
    var s := WithTag(Named(host, repo), tag);
    match digest
    case None => s
    case Some(d) => s + "@" + d
  }

  /** Looks like a host name: it has a dot or a port, or it is this machine. */
  predicate IsHost(h: string) {
    '/' !in h && ('.' in h || ':' in h || h == "localhost")
  }

  /** What precedes the first slash, if there is one, is no host. */
  predicate Hostless(repo: string) {
    forall i :: 0 <= i < |repo| && repo[i] == '/' && '/' !in repo[..i] ==> !IsHost(repo[..i])
  }

  /** A colon in the name is a port's: a slash follows. */
  predicate Tagless(name: string) {
    forall i :: 0 <= i < |name| && name[i] == ':' ==> '/' in name[i+1..]
  }

  /** The parts are read back as they were meant. */
  predicate Readable(host: Option<string>, repo: string, tag: Option<string>) {
    && (match host case None => Hostless(repo) case Some(h) => IsHost(h))
    && (match tag
        case None => Tagless(Named(host, repo))
        case Some(t) => '@' !in t && ':' !in t && '/' !in t)
    && '@' !in Named(host, repo)
  }

  lemma DigestDropped(s: string, digest: Option<string>)
    requires '@' !in s
    ensures WithoutDigest(match digest case None => s case Some(d) => s + "@" + d) == s
  {
    if digest.Some? {
      FirstAt(s, '@', digest.value);
      assert (s + ['@'] + digest.value)[..|s|] == s;
    }
  }

  lemma TagRead(name: string, tag: Option<string>)
    requires match tag case None => Tagless(name) case Some(t) => ':' !in t && '/' !in t
    ensures SplitTag(WithTag(name, tag)) == (name, if tag.Some? then tag.value else "latest")
  {
    if tag.Some? {
      SplitTagOf(name, tag.value);
    }
  }

  lemma HostRead(host: Option<string>, repo: string)
    requires match host case None => Hostless(repo) case Some(h) => IsHost(h)
    ensures SplitRegistry(Named(host, repo)) == (if host.Some? then host.value else "registry-1.docker.io", repo)
  {
    if host.Some? {
      SplitRegistryOf(host.value, repo);
    }
  }

  lemma TaggedClean(name: string, tag: Option<string>)
    requires '@' !in name && (tag.Some? ==> '@' !in tag.value)
    ensures '@' !in WithTag(name, tag)
  {
    if tag.Some? {
      InConcat(name, ":", '@');
      InConcat(name + ":", tag.value, '@');
    }
  }

  /** What a written reference is read as: the host, or else Docker Hub's registry; the name,
      below library/ if it is a single word on that registry; the tag, or else "latest". */
  lemma ReadsAs(host: Option<string>, repo: string, tag: Option<string>, digest: Option<string>)
    requires Readable(host, repo, tag)
    ensures var registry := if host.Some? then host.value else "registry-1.docker.io";
            Parse(Written(host, repo, tag, digest)) ==
            Reference(registry,
                      if registry == "registry-1.docker.io" && '/' !in repo then "library/" + repo else repo,
                      if tag.Some? then tag.value else "latest")
  {
    var name := Named(host, repo);
    TaggedClean(name, tag);
    DigestDropped(WithTag(name, tag), digest);
    TagRead(name, tag);
    HostRead(host, repo);
  }

  /** And printed. */
  lemma NormalizesTo(host: Option<string>, repo: string, tag: Option<string>, digest: Option<string>)
    requires Readable(host, repo, tag)
    ensures var registry := if host.Some? then host.value else "registry-1.docker.io";
            NormalizeImageRef(Written(host, repo, tag, digest)) ==
            registry + "/" + (if registry == "registry-1.docker.io" && '/' !in repo then "library/" + repo else repo)
            + ":" + if tag.Some? then tag.value else "latest"
  {
    ReadsAs(host, repo, tag, digest);
    NormalizeIsRender(Written(host, repo, tag, digest));
  }

  function DigestOf(ref: string): Option<string> {
    var n := |WithoutDigest(ref)|;
    if n < |ref| then Some(ref[n+1..]) else None
  }

  function TagOf(base: string): Option<string> {
    if |SplitTag(base).0| < |base| then Some(SplitTag(base).1) else None
  }

  function HostOf(name: string): Option<string> {
    if |SplitRegistry(name).1| < |name| then Some(SplitRegistry(name).0) else None
  }

  lemma DigestSplit(ref: string)
    ensures var s := WithoutDigest(ref);
            '@' !in s && ref == match DigestOf(ref) case None => s case Some(d) => s + "@" + d
  {
    var i := Index(ref, '@');
    if i >= 0 {
      assert ref == ref[..i] + [ref[i]] + ref[i+1..];
    }
  }

  lemma TagSplit(base: string)
    ensures base == WithTag(SplitTag(base).0, TagOf(base))
    ensures match TagOf(base)
            case None => Tagless(SplitTag(base).0)
            case Some(t) => ':' !in t && '/' !in t && (forall c :: c !in base ==> c !in t)
    ensures forall c :: c !in base ==> c !in SplitTag(base).0
  {
    var i := LastIndex(base, ':');
    if i >= 0 && '/' !in base[i+1..] {
      assert base == base[..i] + [base[i]] + base[i+1..];
    } else if i >= 0 {
      ColonBeforeSlash(base, i);
    }
  }

  lemma ColonBeforeSlash(base: string, i: nat)
    requires i < |base| && ':' !in base[i+1..] && '/' in base[i+1..]
    ensures Tagless(base)
  {
    forall j | 0 <= j < |base| && base[j] == ':' ensures '/' in base[j+1..] {
      assert forall k :: i < k < |base| ==> base[i+1..][k-i-1] == base[k];
      assert j <= i;
      var k :| 0 <= k < |base[i+1..]| && base[i+1..][k] == '/';
      assert base[j+1..][i+1+k-j-1] == '/';
    }
  }

  lemma HostSplit(name: string)
    ensures name == Named(HostOf(name), SplitRegistry(name).1)
    ensures match HostOf(name) case None => Hostless(SplitRegistry(name).1) case Some(h) => IsHost(h)
  {
    var i := Index(name, '/');
    if i >= 0 && HostLike(name[..i]) {
      assert name == name[..i] + [name[i]] + name[i+1..];
    } else if i >= 0 {
      FirstSlashDecides(name, i);
    }
  }

  lemma FirstSlashDecides(name: string, i: nat)
    requires i < |name| && name[i] == '/' && '/' !in name[..i] && !IsHost(name[..i])
    ensures Hostless(name)
  {
    forall j | 0 <= j < |name| && name[j] == '/' && '/' !in name[..j] ensures j == i {
      assert forall k :: 0 <= k < j ==> name[..j][k] == name[k];
      assert forall k :: 0 <= k < i ==> name[..i][k] == name[k];
    }
  }

  /** Every string is such a reference. */
  lemma EveryReference(ref: string)
    ensures exists host, repo, tag, digest :: Readable(host, repo, tag) && ref == Written(host, repo, tag, digest)
  {
    var base := WithoutDigest(ref);
    var name, tag := SplitTag(base).0, TagOf(base);
    var host, repo := HostOf(name), SplitRegistry(name).1;
    DigestSplit(ref);
    TagSplit(base);
    HostSplit(name);
    assert Readable(host, repo, tag);
    assert ref == Written(host, repo, tag, DigestOf(ref));
  }

  /** In particular: a user's image on Docker Hub. */
  lemma UserImage(user: string, repo: string)
    requires '.' !in user && ':' !in user && '/' !in user && '@' !in user && user != "localhost"
    requires '@' !in repo && ':' !in repo
    ensures Parse(user + "/" + repo) == Reference("registry-1.docker.io", user + "/" + repo, "latest")
  {
    var name := user + "/" + repo;
    assert name[|user|] == '/' && name[..|user|] == user;
    FirstSlashDecides(name, |user|);
    InConcat(user, "/", ':');
    InConcat(user + "/", repo, ':');
    InConcat(user, "/", '@');
    InConcat(user + "/", repo, '@');
    ReadsAs(None, name, None, None);
  }

  // ----- Deduplication -----

  datatype Layer = Image(ref: string) | Rootfs(path: string)

  function DedupKey(l: Layer): string {
    match l
    case Image(ref) => "image:" + NormalizeImageRef(ref)
    case Rootfs(path) => "rootfs:" + path
  }

  /** What deduplication keeps. */
  function Dedup(layers: seq<Layer>): seq<Layer> {
    KeepLast(DedupKey, layers)
  }

  /** DeduplicateLayers: a backward loop that keeps the first layer met for each key, then an
      in-place reversal of what was kept. */
  method DeduplicateLayers(layers: seq<Layer>) returns (kept: seq<Layer>)
    ensures kept == Dedup(layers)
  {
    kept := KeepLastLoop(DedupKey, layers, Rootfs(""));
  }

  /** The two loops, for any key. The array is the slice's backing store; `blank` fills the
      room not used yet. */
  method KeepLastLoop<T>(key: T -> string, layers: seq<T>, blank: T) returns (kept: seq<T>)
    ensures kept == KeepLast(key, layers)
  {
    var seen: set<string> := {};
    var out := new T[|layers|](_ => blank);
    var n := 0;
    var i := |layers|;
    assert layers[i..] == [];
    while i > 0
      invariant 0 <= i <= |layers| && 0 <= n <= |layers| - i
      invariant seen == KeySet(key, layers[i..])
      invariant Reversed(out[..n]) == KeepLast(key, layers[i..])
    {
      i := i - 1;
      var l := layers[i];
      assert layers[i..][1..] == layers[i+1..] && layers[i..][0] == l;
      KeySetStep(key, layers[i..]);
      if key(l) in seen {
        continue;
      }
      seen := seen + {key(l)};
      ghost var before := out[..n];
      out[n] := l;
      n := n + 1;
      assert out[..n] == before + [l];
      ReversedSnoc(before, l);
    }
    assert layers[0..] == layers;
    ReverseInPlace(out, n);
    return out[..n];
  }

  /** The final loop of DeduplicateLayers, over the first n elements. */
  method ReverseInPlace<T>(out: array<T>, n: nat)
    requires n <= out.Length
    modifies out
    ensures out[..n] == Reversed(old(out[..n]))
  {
    var i, j := 0, n - 1;
    while i < j
      invariant 0 <= i <= j + 2 && i + j == n - 1
      invariant forall k :: 0 <= k < i ==> out[k] == old(out[n - 1 - k]) && out[n - 1 - k] == old(out[k])
      invariant forall k :: i <= k <= j ==> out[k] == old(out[k])
    {
      out[i], out[j] := out[j], out[i];
      i, j := i + 1, j - 1;
    }
    ghost var was := old(out[..n]);
    forall k | 0 <= k < n ensures out[..n][k] == was[n - 1 - k] {
      assert was[n - 1 - k] == old(out[n - 1 - k]);
      if k > j {
        assert out[n - 1 - (n - 1 - k)] == old(out[n - 1 - k]);
      } else if k >= i {
        assert n - 1 - k == k;
      }
    }
    MirrorIsReversed(was, out[..n]);
  }

  lemma MirrorIsReversed<T>(was: seq<T>, now: seq<T>)
    requires |now| == |was| && forall k :: 0 <= k < |was| ==> now[k] == was[|was| - 1 - k]
    ensures now == Reversed(was)
  {
    assert was == [] ==> now == [];
    forall k | 0 <= k < |was| ensures |Reversed(was)| == |was| && now[k] == Reversed(was)[k] {
      ReversedAt(was, k);
    }
  }

  /** Equal keys: the same kind, and the same canonical reference or the same path. */
  lemma KeyFaithful(a: Layer, b: Layer)
    ensures DedupKey(a) == DedupKey(b) <==>
            match (a, b)
            case (Image(r), Image(s)) => Parse(r) == Parse(s)
            case (Rootfs(p), Rootfs(q)) => p == q
            case _ => false
  {
    match (a, b)
    case (Image(r), Image(s)) =>
      NormalizeSameIff(r, s);
      assert DedupKey(a)[6..] == NormalizeImageRef(r) && DedupKey(b)[6..] == NormalizeImageRef(s);
    case (Rootfs(p), Rootfs(q)) =>
      assert DedupKey(a)[7..] == p && DedupKey(b)[7..] == q;
    case (Image(_), Rootfs(_)) =>
      assert DedupKey(a)[0] == 'i' && DedupKey(b)[0] == 'r';
    case (Rootfs(_), Image(_)) =>
      assert DedupKey(a)[0] == 'r' && DedupKey(b)[0] == 'i';
  }

  // ----- Cache key -----

  function KeyList(layers: seq<Layer>): (ks: seq<string>)
    ensures |ks| == |layers|
    ensures forall i :: 0 <= i < |ks| ==> ks[i] == DedupKey(layers[i])
  {
    seq(|layers|, i requires 0 <= i < |layers| => DedupKey(layers[i]))
  }

  function Lines(ks: seq<string>): string {
    if ks == [] then "" else ks[0] + "\n" + Lines(ks[1..])
  }

  /** One layer's writes to the running hash. */
  method Feed(h: string, l: Layer) returns (fed: string)
    ensures fed == h + (DedupKey(l) + "\n")
  {
    match l {
      case Image(ref) =>
        fed := h + "image:";
        fed := fed + NormalizeImageRef(ref);
        ConcatThree(h, "image:", NormalizeImageRef(ref));
      case Rootfs(path) =>
        fed := h + "rootfs:";
        fed := fed + path;
        ConcatThree(h, "rootfs:", path);
    }
    fed := fed + "\n";
    ConcatThree(h, DedupKey(l), "\n");
  }

  /** The text after one more layer. */
  lemma FedLine(layers: seq<Layer>, i: nat)
    requires i < |layers|
    ensures Lines(KeyList(layers)[..i+1]) == Lines(KeyList(layers)[..i]) + (DedupKey(layers[i]) + "\n")
  {
    var ks := KeyList(layers);
    LinesSnoc(ks[..i], ks[i]);
    assert ks[..i+1] == ks[..i] + [ks[i]];
  }

  /** ComputeCacheKey, with the digest as a parameter. */
  method ComputeCacheKey(layers: seq<Layer>, digest: string -> string) returns (key: string)
    ensures key == digest(Lines(KeyList(layers)))
  {
    var h := "";
    for i := 0 to |layers|
      invariant h == Lines(KeyList(layers)[..i])
    {
      h := Feed(h, layers[i]);
      FedLine(layers, i);
    }
    assert KeyList(layers)[..|layers|] == KeyList(layers);
    return digest(h);
  }

  lemma ConcatThree(a: string, b: string, c: string)
    ensures a + b + c == a + (b + c)
  {
  }

  lemma {:induction false} LinesSnoc(ks: seq<string>, k: string)
    ensures Lines(ks + [k]) == Lines(ks) + (k + "\n")
    decreases |ks|
  {
    if ks == [] {
      assert ks + [k] == [k];
      assert [k][1..] == [];
    } else {
      assert (ks + [k])[1..] == ks[1..] + [k];
      LinesSnoc(ks[1..], k);
    }
  }

  predicate OneLine(l: Layer) {
    match l
    case Image(ref) => '\n' !in ref
    case Rootfs(path) => '\n' !in path
  }

  lemma NormalizeOneLine(ref: string)
    requires '\n' !in ref
    ensures '\n' !in NormalizeImageRef(ref)
  {
    ForeignChars();
    ParseParts(ref, '\n');
    NormalizeIsRender(ref);
    InRender(Parse(ref), '\n');
  }

  lemma KeyOneLine(l: Layer)
    requires OneLine(l)
    ensures '\n' !in DedupKey(l)
  {
    match l
    case Image(ref) =>
      NormalizeOneLine(ref);
      InConcat("image:", NormalizeImageRef(ref), '\n');
    case Rootfs(path) =>
      InConcat("rootfs:", path, '\n');
  }

  // ----- Where the lines of the hashed text can be told apart -----

  predicate Tagged(tags: set<string>, s: string) {
    exists t :: t in tags && t <= s
  }

  predicate NoBreaks(tags: set<string>) {
    forall t :: t in tags ==> '\n' !in t
  }

  /** A line of s after its first begins like a key. */
  predicate CutAt(tags: set<string>, s: string, i: nat) {
    i < |s| && s[i] == '\n' && Tagged(tags, s[i+1..])
  }

  ghost predicate Whole(tags: set<string>, s: string) {
    forall i: nat :: !CutAt(tags, s, i)
  }

  ghost predicate KeyLike(tags: set<string>, s: string) {
    Tagged(tags, s) && Whole(tags, s)
  }

  /** Cuts a key before every line that begins like a key; `done` has been read. */
  function Pieces(tags: set<string>, done: string, rest: string): (ps: seq<string>)
    ensures ps != []
    decreases |rest|
  {
    if rest == "" then [done]
    else if CutAt(tags, rest, 0) then [done] + Pieces(tags, "", rest[1..])
    else Pieces(tags, done + [rest[0]], rest[1..])
  }

  function AllPieces(tags: set<string>, ks: seq<string>): seq<string> {
    if ks == [] then [] else Pieces(tags, "", ks[0]) + AllPieces(tags, ks[1..])
  }

  lemma {:induction false} LinesConcat(a: seq<string>, b: seq<string>)
    ensures Lines(a + b) == Lines(a) + Lines(b)
    decreases |a|
  {
    if a == [] {
      assert a + b == b;
    } else {
      assert (a + b)[0] == a[0] && (a + b)[1..] == a[1..] + b;
      LinesConcat(a[1..], b);
    }
  }

  lemma {:induction false} PiecesText(tags: set<string>, done: string, rest: string)
    ensures Lines(Pieces(tags, done, rest)) == done + rest + "\n"
    decreases |rest|
  {
    if rest == "" {
      assert [done][1..] == [] && done + rest == done;
    } else if CutAt(tags, rest, 0) {
      var more := Pieces(tags, "", rest[1..]);
      PiecesText(tags, "", rest[1..]);
      assert ([done] + more)[1..] == more;
      assert rest == "\n" + rest[1..] && "" + rest[1..] == rest[1..];
    } else {
      PiecesText(tags, done + [rest[0]], rest[1..]);
      assert done + [rest[0]] + rest[1..] == done + rest;
    }
  }

  lemma TagBeforeBreak(tags: set<string>, a: string, b: string)
    requires NoBreaks(tags) && Tagged(tags, a + "\n" + b)
    ensures Tagged(tags, a)
  {
    var s := a + "\n" + b;
    var t :| t in tags && t <= s;
    assert s[|a|] == '\n' && t == s[..|t|];
    assert |t| <= |a| by {
      assert forall i :: 0 <= i < |t| ==> s[i] == t[i] && s[i] != '\n';
    }
    assert t == a[..|t|];
  }

  lemma TagOfPrefix(tags: set<string>, a: string, b: string)
    requires Tagged(tags, a)
    ensures Tagged(tags, a + b)
  {
    var t :| t in tags && t <= a;
    assert t <= a + b;
  }

  /** Every piece begins like a key and cannot be cut further. */
  lemma {:induction false} PiecesAreKeys(tags: set<string>, done: string, rest: string)
    requires NoBreaks(tags) && Tagged(tags, done + rest)
    requires forall i: nat :: i < |done| ==> !CutAt(tags, done + rest, i)
    ensures forall k :: k in Pieces(tags, done, rest) ==> KeyLike(tags, k)
    decreases |rest|
  {
    if rest == "" {
      assert done + rest == done;
    } else if CutAt(tags, rest, 0) {
      assert done + rest == done + "\n" + rest[1..];
      TagBeforeBreak(tags, done, rest[1..]);
      forall i: nat | i < |done| && done[i] == '\n' ensures !Tagged(tags, done[i+1..]) {
        assert !CutAt(tags, done + rest, i);
        assert (done + rest)[i+1..] == done[i+1..] + rest;
        if Tagged(tags, done[i+1..]) {
          TagOfPrefix(tags, done[i+1..], rest);
        }
      }
      assert "" + rest[1..] == rest[1..];
      PiecesAreKeys(tags, "", rest[1..]);
    } else {
      assert done + [rest[0]] + rest[1..] == done + rest;
      assert !CutAt(tags, done + rest, |done|) by {
        assert (done + rest)[|done|+1..] == rest[1..];
      }
      PiecesAreKeys(tags, done + [rest[0]], rest[1..]);
    }
  }

  lemma {:induction false} AllPiecesKeys(tags: set<string>, ks: seq<string>)
    requires NoBreaks(tags) && (forall k :: k in ks ==> Tagged(tags, k))
    ensures Lines(AllPieces(tags, ks)) == Lines(ks)
    ensures forall k :: k in AllPieces(tags, ks) ==> KeyLike(tags, k)
    ensures |AllPieces(tags, ks)| >= |ks|
    decreases |ks|
  {
    if ks != [] {
      assert "" + ks[0] == ks[0];
      PiecesText(tags, "", ks[0]);
      PiecesAreKeys(tags, "", ks[0]);
      AllPiecesKeys(tags, ks[1..]);
      LinesConcat(Pieces(tags, "", ks[0]), AllPieces(tags, ks[1..]));
    }
  }

  lemma FirstLine(ks: seq<string>)
    requires ks != []
    ensures Lines(ks) == ks[0] + "\n" + Lines(ks[1..])
    ensures |Lines(ks)| == |ks[0]| + 1 + |Lines(ks[1..])| && Lines(ks)[|ks[0]|] == '\n'
    ensures Lines(ks)[..|ks[0]|] == ks[0] && Lines(ks)[|ks[0]|+1..] == Lines(ks[1..])
  {
  }

  lemma TailOf(x: string, y: string, n: nat)
    requires n < |x|
    ensures (x + y)[n] == x[n] && (x + y)[n+1..] == x[n+1..] + y
  {
  }

  lemma StartsTagged(tags: set<string>, ks: seq<string>)
    requires ks != [] && Tagged(tags, ks[0])
    ensures Tagged(tags, Lines(ks))
  {
    ConcatThree(ks[0], "\n", Lines(ks[1..]));
    TagOfPrefix(tags, ks[0], "\n" + Lines(ks[1..]));
  }

  /** A shorter first line shows as a cut in the longer one. */
  lemma ShorterCuts(tags: set<string>, a: seq<string>, b: seq<string>)
    requires NoBreaks(tags) && a != [] && b != [] && (forall k :: k in a ==> Tagged(tags, k))
    requires Lines(a) == Lines(b) && |a[0]| < |b[0]|
    ensures !Whole(tags, b[0])
  {
    var n, rest := |a[0]|, "\n" + Lines(b[1..]);
    var tail := b[0][n+1..];
    FirstLine(a);
    ConcatThree(b[0], "\n", Lines(b[1..]));
    TailOf(b[0], rest, n);
    ConcatThree(tail, "\n", Lines(b[1..]));
    assert Lines(a[1..]) == tail + rest;
    assert a[1..] != [];
    StartsTagged(tags, a[1..]);
    TagBeforeBreak(tags, tail, Lines(b[1..]));
    assert CutAt(tags, b[0], n);
  }

  /** Lists of uncut keys are determined by the text. */
  lemma {:induction false} KeyLikeUnique(tags: set<string>, a: seq<string>, b: seq<string>)
    requires NoBreaks(tags)
    requires forall k :: k in a ==> KeyLike(tags, k)
    requires forall k :: k in b ==> KeyLike(tags, k)
    requires Lines(a) == Lines(b)
    ensures a == b
    decreases |a|
  {
    if a != [] && b != [] {
      assert a[0] in a && b[0] in b;
      assert |a[0]| == |b[0]| by {
        if |a[0]| < |b[0]| {
          ShorterCuts(tags, a, b);
        } else if |b[0]| < |a[0]| {
          ShorterCuts(tags, b, a);
        }
      }
      FirstLine(a);
      FirstLine(b);
      KeyLikeUnique(tags, a[1..], b[1..]);
      assert a == [a[0]] + a[1..] && b == [b[0]] + b[1..];
    }
  }

  /** Exactly when two lists of keys give the same text: their pieces agree. */
  lemma LinesIff(tags: set<string>, a: seq<string>, b: seq<string>)
    requires NoBreaks(tags)
    requires (forall k :: k in a ==> Tagged(tags, k)) && (forall k :: k in b ==> Tagged(tags, k))
    ensures Lines(a) == Lines(b) <==> AllPieces(tags, a) == AllPieces(tags, b)
  {
    AllPiecesKeys(tags, a);
    AllPiecesKeys(tags, b);
    if Lines(a) == Lines(b) {
      KeyLikeUnique(tags, AllPieces(tags, a), AllPieces(tags, b));
    }
  }

  lemma WholeIsOnePiece(tags: set<string>, ks: seq<string>)
    requires NoBreaks(tags) && (forall k :: k in ks ==> KeyLike(tags, k))
    ensures AllPieces(tags, ks) == ks
  {
    AllPiecesKeys(tags, ks);
    KeyLikeUnique(tags, AllPieces(tags, ks), ks);
  }

  /** A key that can be cut adds a piece. */
  lemma {:induction false} CutGrows(tags: set<string>, ks: seq<string>, i: nat)
    requires NoBreaks(tags) && (forall k :: k in ks ==> Tagged(tags, k))
    requires i < |ks| && !Whole(tags, ks[i])
    ensures |AllPieces(tags, ks)| > |ks|
    decreases |ks|
  {
    AllPiecesKeys(tags, ks[1..]);
    if i == 0 {
      var ps := Pieces(tags, "", ks[0]);
      assert "" + ks[0] == ks[0];
      PiecesText(tags, "", ks[0]);
      PiecesAreKeys(tags, "", ks[0]);
      FirstLine(ps);
      assert ps[0] in ps;
    } else {
      CutGrows(tags, ks[1..], i - 1);
    }
  }

  // ----- What the cache key can tell apart -----

  const KEY_TAGS: set<string> := {"image:", "rootfs:"}

  lemma KeysTagged(layers: seq<Layer>)
    ensures NoBreaks(KEY_TAGS)
    ensures forall k :: k in KeyList(layers) ==> Tagged(KEY_TAGS, k)
  {
    forall k | k in KeyList(layers) ensures Tagged(KEY_TAGS, k) {
      var i :| 0 <= i < |layers| && k == DedupKey(layers[i]);
      match layers[i]
      case Image(_) => assert "image:" in KEY_TAGS && "image:" <= k;
      case Rootfs(_) => assert "rootfs:" in KEY_TAGS && "rootfs:" <= k;
    }
  }

  /** For all lists whatever: the digest is fed the same bytes exactly when the keys, cut
      before every line that begins like a key, agree. */
  lemma CachePreimageIff(a: seq<Layer>, b: seq<Layer>)
    ensures Lines(KeyList(a)) == Lines(KeyList(b))
            <==> AllPieces(KEY_TAGS, KeyList(a)) == AllPieces(KEY_TAGS, KeyList(b))
  {
    KeysTagged(a);
    KeysTagged(b);
    LinesIff(KEY_TAGS, KeyList(a), KeyList(b));
  }

  /** The hashed text is faithful as long as no line inside a key begins with "image:" or
      "rootfs:"; other line breaks do no harm. */
  lemma CachePreimageFaithful(a: seq<Layer>, b: seq<Layer>)
    requires forall i :: 0 <= i < |a| ==> Whole(KEY_TAGS, DedupKey(a[i]))
    requires forall i :: 0 <= i < |b| ==> Whole(KEY_TAGS, DedupKey(b[i]))
    ensures Lines(KeyList(a)) == Lines(KeyList(b)) <==> KeyList(a) == KeyList(b)
  {
    KeysTagged(a);
    KeysTagged(b);
    CachePreimageIff(a, b);
    WholeIsOnePiece(KEY_TAGS, KeyList(a));
    WholeIsOnePiece(KEY_TAGS, KeyList(b));
  }

  lemma OneLineIsWhole(l: Layer)
    requires OneLine(l)
    ensures Whole(KEY_TAGS, DedupKey(l))
  {
    KeyOneLine(l);
  }

  /** Directory layers only. */
  function RootfsKeys(paths: seq<string>): (ks: seq<string>)
    ensures |ks| == |paths|
    ensures forall i :: 0 <= i < |ks| ==> ks[i] == "rootfs:" + paths[i]
  {
    seq(|paths|, i requires 0 <= i < |paths| => "rootfs:" + paths[i])
  }

  function RootfsLayers(paths: seq<string>): (ls: seq<Layer>)
    ensures |ls| == |paths|
  {
    seq(|paths|, i requires 0 <= i < |paths| => Rootfs(paths[i]))
  }

  lemma RootfsKeyList(paths: seq<string>)
    ensures KeyList(RootfsLayers(paths)) == RootfsKeys(paths)
  {
  }

  const ROOTFS_TAG: set<string> := {"rootfs:"}

  lemma RootfsTagged(paths: seq<string>)
    ensures NoBreaks(ROOTFS_TAG)
    ensures forall k :: k in RootfsKeys(paths) ==> Tagged(ROOTFS_TAG, k)
  {
    forall k | k in RootfsKeys(paths) ensures Tagged(ROOTFS_TAG, k) {
      assert "rootfs:" in ROOTFS_TAG && "rootfs:" <= k;
    }
  }

  /** A first line without a tag in it takes no part in the cutting. */
  lemma CutShift(tags: set<string>, pre: string, path: string)
    requires '\n' !in pre
    ensures Whole(tags, pre + path) <==> Whole(tags, path)
  {
    var k := pre + path;
    forall i: nat ensures CutAt(tags, k, |pre| + i) <==> CutAt(tags, path, i) {
      if i < |path| {
        assert k[|pre| + i] == path[i] && k[|pre| + i + 1..] == path[i+1..];
      }
    }
    if !Whole(tags, k) {
      var i: nat :| CutAt(tags, k, i);
      var j: nat := i - |pre|;
      assert i == |pre| + j;
      assert CutAt(tags, path, j);
    }
  }

  /** Lists that hold a list of keys as directory layers. */
  lemma KeysAreRootfs(ks: seq<string>)
    requires forall k :: k in ks ==> Tagged(ROOTFS_TAG, k)
    ensures exists paths :: RootfsKeys(paths) == ks
  {
    forall i | 0 <= i < |ks| ensures "rootfs:" <= ks[i] {
      assert Tagged(ROOTFS_TAG, ks[i]);
    }
    var paths := seq(|ks|, i requires 0 <= i < |ks| => ks[i][7..]);
    forall i | 0 <= i < |ks| ensures RootfsKeys(paths)[i] == ks[i] {
      assert ks[i] == "rootfs:" + ks[i][7..];
    }
    assert RootfsKeys(paths) == ks;
  }

  /** More directory layers feeding the same bytes. */
  ghost predicate Longer(more: seq<string>, paths: seq<string>) {
    && |more| > |paths|
    && Lines(KeyList(RootfsLayers(more))) == Lines(KeyList(RootfsLayers(paths)))
  }

  lemma CutCollides(paths: seq<string>, i: nat)
    requires i < |paths| && !Whole(ROOTFS_TAG, paths[i])
    ensures exists more :: Longer(more, paths)
  {
    var ks := RootfsKeys(paths);
    RootfsTagged(paths);
    CutShift(ROOTFS_TAG, "rootfs:", paths[i]);
    CutGrows(ROOTFS_TAG, ks, i);
    AllPiecesKeys(ROOTFS_TAG, ks);
    KeysAreRootfs(AllPieces(ROOTFS_TAG, ks));
    var more :| RootfsKeys(more) == AllPieces(ROOTFS_TAG, ks);
    RootfsKeyList(more);
    RootfsKeyList(paths);
    assert |more| == |RootfsKeys(more)| > |paths|;
    assert Longer(more, paths);
  }

  lemma WholeIsLongest(paths: seq<string>, more: seq<string>)
    requires forall i :: 0 <= i < |paths| ==> Whole(ROOTFS_TAG, paths[i])
    ensures !Longer(more, paths)
  {
    var ks, ls := RootfsKeys(paths), RootfsKeys(more);
    RootfsTagged(paths);
    RootfsTagged(more);
    RootfsKeyList(paths);
    RootfsKeyList(more);
    forall k | k in ks ensures KeyLike(ROOTFS_TAG, k) {
      var i :| 0 <= i < |paths| && k == ks[i];
      CutShift(ROOTFS_TAG, "rootfs:", paths[i]);
    }
    WholeIsOnePiece(ROOTFS_TAG, ks);
    AllPiecesKeys(ROOTFS_TAG, ls);
    LinesIff(ROOTFS_TAG, ls, ks);
  }

  /** For directory layers the condition is exact: a longer list feeds the same bytes exactly
      when some path has a line after its first that begins with "rootfs:". */
  lemma RootfsCollidesIff(paths: seq<string>)
    ensures (exists more :: Longer(more, paths)) <==> exists i :: 0 <= i < |paths| && !Whole(ROOTFS_TAG, paths[i])
  {
    if i :| 0 <= i < |paths| && !Whole(ROOTFS_TAG, paths[i]) {
      CutCollides(paths, i);
    } else {
      forall more ensures !Longer(more, paths) {
        WholeIsLongest(paths, more);
      }
    }
  }

  lemma LinesOfOne(k: string)
    ensures Lines([k]) == k + "\n"
  {
    assert [k][0] == k && [k][1..] == [];
    assert k + "\n" + "" == k + "\n";
  }

  lemma LinesOfTwo(k: string, l: string)
    ensures Lines([k, l]) == k + "\n" + (l + "\n")
  {
    assert [k, l][0] == k && [k, l][1..] == [l];
    LinesOfOne(l);
  }

  /** The text itself, for an official image and a directory. */
  lemma CacheLines(name: string, path: string)
    requires '@' !in name && ':' !in name && '/' !in name
    ensures Lines(KeyList([Image(name), Rootfs(path)])) ==
            "image:" + ("registry-1.docker.io" + "/" + ("library/" + name) + ":" + "latest") + "\n"
            + ("rootfs:" + path + "\n")
  {
    NormalizesTo(None, name, None, None);
    assert Written(None, name, None, None) == name;
    KeyListOfTwo(Image(name), Rootfs(path));
    LinesOfTwo(DedupKey(Image(name)), DedupKey(Rootfs(path)));
  }

  lemma KeyListOfTwo(a: Layer, b: Layer)
    ensures KeyList([a, b]) == [DedupKey(a), DedupKey(b)]
  {
  }

  /** For any two paths: joined by such a line, one layer feeds the bytes of the two. */
  lemma LineBreakCollides(p: string, q: string)
    ensures var a, b := [Rootfs(p), Rootfs(q)], [Rootfs(p + "\nrootfs:" + q)];
            Lines(KeyList(a)) == Lines(KeyList(b)) && KeyList(a) != KeyList(b)
  {
    var a, b := [Rootfs(p), Rootfs(q)], [Rootfs(p + "\nrootfs:" + q)];
    var k, l := "rootfs:" + p, "rootfs:" + q;
    var m := "rootfs:" + (p + "\nrootfs:" + q);
    assert KeyList(a) == [k, l] && KeyList(b) == [m];
    LinesOfTwo(k, l);
    LinesOfOne(m);
    JoinedKeys(p, q);
  }

  lemma JoinedKeys(p: string, q: string)
    ensures "rootfs:" + p + "\n" + ("rootfs:" + q + "\n") == "rootfs:" + (p + "\nrootfs:" + q) + "\n"
  {
    assert "\nrootfs:" == "\n" + "rootfs:";
    assert p + "\nrootfs:" + q == p + "\n" + ("rootfs:" + q);
  }
}

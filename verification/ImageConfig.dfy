/** Merging the configurations of several images. */
module ImageConfigs {
  import opened Wrappers

  // ----- Environment lists -----

  /** The part of an entry before its first '='. */
  function Key(entry: string): string {
    if entry == "" || entry[0] == '=' then "" else [entry[0]] + Key(entry[1..])
  }

  /** The key is the longest part from the left without an '='. */
  lemma {:induction false} KeySplits(entry: string)
    ensures Key(entry) <= entry && '=' !in Key(entry)
    ensures |Key(entry)| < |entry| ==> entry[|Key(entry)|] == '='
    decreases |entry|
  {
    if entry != "" && entry[0] != '=' {
      KeySplits(entry[1..]);
      assert Key(entry)[1..] == Key(entry[1..]);
    }
  }

  lemma KeyAt(entry: string, i: nat)
    requires i < |entry|
    ensures entry[..i] + Key(entry[i..]) ==
            if entry[i] == '=' then entry[..i] else entry[..i+1] + Key(entry[i+1..])
  {
    assert entry[i..][0] == entry[i] && entry[i..][1..] == entry[i+1..];
    assert entry[..i+1] == entry[..i] + [entry[i]];
    assert entry[..i] + "" == entry[..i];
    assert entry[..i] + ([entry[i]] + Key(entry[i+1..])) == entry[..i] + [entry[i]] + Key(entry[i+1..]);
  }

  /** envKey. */
  method EnvKey(entry: string) returns (key: string)
    ensures key == Key(entry)
  {
    for i := 0 to |entry|
      invariant Key(entry) == entry[..i] + Key(entry[i..])
    {
      KeyAt(entry, i);
      if entry[i] == '=' {
        return entry[..i];
      }
    }
    assert entry[|entry|..] == "" && entry[..|entry|] == entry;
    return entry;
  }

  /** One entry goes over the first entry with its key, or to the end. */
  function Put(env: seq<string>, e: string): seq<string> {
    if env == [] then [e]
    else if Key(env[0]) == Key(e) then [e] + env[1..]
    else [env[0]] + Put(env[1..], e)
  }

  function MergeEnv(base: seq<string>, overlay: seq<string>): seq<string>
    decreases |overlay|
  {
    if overlay == [] then base else MergeEnv(Put(base, overlay[0]), overlay[1..])
  }

  ghost predicate HasKey(env: seq<string>, k: string) {
    exists i :: 0 <= i < |env| && Key(env[i]) == k
  }

  lemma {:induction false} PutAt(env: seq<string>, e: string, i: nat)
    requires i < |env| && Key(env[i]) == Key(e)
    requires forall j :: 0 <= j < i ==> Key(env[j]) != Key(e)
    ensures Put(env, e) == env[i := e]
    decreases i
  {
    if i > 0 {
      PutAt(env[1..], e, i - 1);
    }
  }

  lemma {:induction false} PutEnd(env: seq<string>, e: string)
    requires !HasKey(env, Key(e))
    ensures Put(env, e) == env + [e]
    decreases |env|
  {
    if env != [] {
      assert Key(env[0]) != Key(e);
      assert !HasKey(env[1..], Key(e)) by {
        forall i | 0 <= i < |env[1..]| ensures Key(env[1..][i]) != Key(e) {
          assert env[1..][i] == env[i + 1];
        }
      }
      PutEnd(env[1..], e);
    }
  }

  /** mergeEnv: the nested loops over the overlay and the list built so far. */
  method MergeEnvLoop(base: seq<string>, overlay: seq<string>) returns (out: seq<string>)
    ensures out == MergeEnv(base, overlay)
  {
    out := base;
    for n := 0 to |overlay|
      invariant MergeEnv(out, overlay[n..]) == MergeEnv(base, overlay)
    {
      var e := overlay[n];
      assert overlay[n..][1..] == overlay[n+1..];
      var key := EnvKey(e);
      var replaced := false;
      ghost var before := out;
      for i := 0 to |out|
        invariant out == before && !replaced
        invariant forall j :: 0 <= j < i ==> Key(out[j]) != key
      {
        var existing := EnvKey(out[i]);
        if existing == key {
          PutAt(out, e, i);
          out := out[i := e];
          replaced := true;
          break;
        }
      }
      if !replaced {
        PutEnd(out, e);
        out := out + [e];
      }
    }
  }

  // ----- What a merged list holds -----

  predicate Distinct(env: seq<string>) {
    forall i, j :: 0 <= i < j < |env| ==> Key(env[i]) != Key(env[j])
  }

  /** The first entry for a key: what a reader of the list finds. */
  function First(env: seq<string>, k: string): Option<string> {
    if env == [] then None else if Key(env[0]) == k then Some(env[0]) else First(env[1..], k)
  }

  function LastOf(env: seq<string>, k: string): Option<string>
    decreases |env|
  {
    if env == [] then None
    else if LastOf(env[1..], k).Some? then LastOf(env[1..], k)
    else if Key(env[0]) == k then Some(env[0]) else None
  }

  lemma {:induction false} PutFirst(env: seq<string>, e: string, k: string)
    ensures First(Put(env, e), k) == if Key(e) == k then Some(e) else First(env, k)
    decreases |env|
  {
    if env != [] && Key(env[0]) != Key(e) {
      PutFirst(env[1..], e, k);
    }
  }

  /** The overlay's last value for a key wins; other keys keep the base's value. */
  lemma {:induction false} MergeFirst(base: seq<string>, overlay: seq<string>, k: string)
    ensures First(MergeEnv(base, overlay), k) ==
            if LastOf(overlay, k).Some? then LastOf(overlay, k) else First(base, k)
    decreases |overlay|
  {
    if overlay != [] {
      PutFirst(base, overlay[0], k);
      MergeFirst(Put(base, overlay[0]), overlay[1..], k);
    }
  }

  /** The keys of a list, in order, each once, leaving out those already seen. */
  function NewKeys(seen: seq<string>, env: seq<string>): seq<string>
    decreases |env|
  {
    if env == [] then []
    else if Key(env[0]) in seen then NewKeys(seen, env[1..])
    else [Key(env[0])] + NewKeys(seen + [Key(env[0])], env[1..])
  }

  function Keys(env: seq<string>): (ks: seq<string>)
    ensures |ks| == |env|
    ensures forall i :: 0 <= i < |env| ==> ks[i] == Key(env[i])
  {
    if env == [] then [] else [Key(env[0])] + Keys(env[1..])
  }

  lemma {:induction false} PutKeys(env: seq<string>, e: string)
    ensures Keys(Put(env, e)) == if Key(e) in Keys(env) then Keys(env) else Keys(env) + [Key(e)]
    decreases |env|
  {
    if env != [] && Key(env[0]) != Key(e) {
      PutKeys(env[1..], e);
    }
  }

  /** Base positions are kept and new keys follow in first-seen order. */
  lemma {:induction false} MergeKeys(base: seq<string>, overlay: seq<string>)
    ensures Keys(MergeEnv(base, overlay)) == Keys(base) + NewKeys(Keys(base), overlay)
    decreases |overlay|
  {
    if overlay != [] {
      PutKeys(base, overlay[0]);
      MergeKeys(Put(base, overlay[0]), overlay[1..]);
    }
  }

  predicate NoRepeat(ks: seq<string>) {
    forall i, j :: 0 <= i < j < |ks| ==> ks[i] != ks[j]
  }

  lemma DistinctIsNoRepeat(env: seq<string>)
    ensures Distinct(env) <==> NoRepeat(Keys(env))
  {
    if NoRepeat(Keys(env)) {
      forall i, j | 0 <= i < j < |env| ensures Key(env[i]) != Key(env[j]) {
        assert Keys(env)[i] != Keys(env)[j];
      }
    }
  }

  lemma NoRepeatSnoc(ks: seq<string>, k: string)
    requires NoRepeat(ks) && k !in ks
    ensures NoRepeat(ks + [k])
  {
  }

  lemma PutDistinct(env: seq<string>, e: string)
    requires Distinct(env)
    ensures Distinct(Put(env, e))
  {
    DistinctIsNoRepeat(env);
    DistinctIsNoRepeat(Put(env, e));
    PutKeys(env, e);
    if Key(e) !in Keys(env) {
      NoRepeatSnoc(Keys(env), Key(e));
    }
  }

  lemma {:induction false} MergeDistinct(base: seq<string>, overlay: seq<string>)
    requires Distinct(base)
    ensures Distinct(MergeEnv(base, overlay))
    decreases |overlay|
  {
    if overlay != [] {
      PutDistinct(base, overlay[0]);
      MergeDistinct(Put(base, overlay[0]), overlay[1..]);
    }
  }

  // ----- Associativity of mergeEnv -----

  lemma {:induction false} PutTwice(env: seq<string>, x: string, y: string)
    requires Key(x) == Key(y)
    ensures Put(Put(env, x), y) == Put(env, y)
    decreases |env|
  {
    if env != [] && Key(env[0]) != Key(x) {
      PutTwice(env[1..], x, y);
    }
  }

  lemma {:induction false} PutCommute(env: seq<string>, x: string, y: string)
    requires Key(x) != Key(y) && Key(x) in Keys(env)
    ensures Put(Put(env, y), x) == Put(Put(env, x), y)
    decreases |env|
  {
    if Key(env[0]) != Key(x) && Key(env[0]) != Key(y) {
      PutCommute(env[1..], x, y);
    }
  }

  lemma {:induction false} PutAfterMerge(env: seq<string>, overlay: seq<string>, x: string)
    requires Key(x) in Keys(env) && Key(x) !in Keys(overlay)
    ensures Put(MergeEnv(env, overlay), x) == MergeEnv(Put(env, x), overlay)
    decreases |overlay|
  {
    if overlay != [] {
      PutKeys(env, overlay[0]);
      assert Keys(overlay)[0] != Key(x);
      assert Keys(overlay) == [Key(overlay[0])] + Keys(overlay[1..]);
      PutAfterMerge(Put(env, overlay[0]), overlay[1..], x);
      PutCommute(env, x, overlay[0]);
    }
  }

  lemma DistinctTail(env: seq<string>)
    requires Distinct(env) && env != []
    ensures Distinct(env[1..]) && Key(env[0]) !in Keys(env[1..])
  {
    forall i | 0 <= i < |env[1..]| ensures Keys(env[1..])[i] != Key(env[0]) {
      assert env[1..][i] == env[i + 1];
    }
  }

  lemma {:induction false} MergeThenPut(a: seq<string>, b: seq<string>, x: string)
    requires Distinct(b)
    ensures Put(MergeEnv(a, b), x) == MergeEnv(a, Put(b, x))
    decreases |b|
  {
    if b != [] {
      var y, rest := b[0], b[1..];
      DistinctTail(b);
      if Key(y) == Key(x) {
        PutKeys(a, y);
        PutAfterMerge(Put(a, y), rest, x);
        PutTwice(a, y, x);
        assert ([x] + rest)[1..] == rest;
      } else {
        MergeThenPut(Put(a, y), rest, x);
        assert Put(b, x)[1..] == Put(rest, x);
      }
    }
  }

  lemma {:induction false} MergeAssociates(a: seq<string>, b: seq<string>, c: seq<string>)
    requires Distinct(b)
    ensures MergeEnv(MergeEnv(a, b), c) == MergeEnv(a, MergeEnv(b, c))
    decreases |c|
  {
    if c != [] {
      MergeThenPut(a, b, c[0]);
      PutDistinct(b, c[0]);
      MergeAssociates(a, Put(b, c[0]), c[1..]);
    }
  }

  lemma {:induction false} LastOfPutRepeated(env: seq<string>, e: string)
    requires LastOf(env, Key(e)).Some?
    requires exists i, j :: 0 <= i < j < |env| && Key(env[i]) == Key(e) && Key(env[j]) == Key(e)
    ensures LastOf(Put(env, e), Key(e)) == LastOf(env, Key(e))
    decreases |env|
  {
    var i, j :| 0 <= i < j < |env| && Key(env[i]) == Key(e) && Key(env[j]) == Key(e);
    LastOfPresent(env[1..], j - 1);
    if Key(env[0]) != Key(e) {
      assert env[1..][i - 1] == env[i] && env[1..][j - 1] == env[j];
      LastOfPutRepeated(env[1..], e);
    }
  }

  lemma {:induction false} LastOfPresent(env: seq<string>, j: nat)
    requires j < |env|
    ensures LastOf(env, Key(env[j])).Some?
    decreases |env|
  {
    if j > 0 {
      LastOfPresent(env[1..], j - 1);
    }
  }

  lemma {:induction false} KeyOfKey(e: string)
    ensures Key(Key(e)) == Key(e) && Key(Key(e) + "=") == Key(e)
    decreases |e|
  {
    if e != "" && e[0] != '=' {
      KeyOfKey(e[1..]);
      assert Key(e)[1..] == Key(e[1..]);
      assert (Key(e) + "=")[1..] == Key(e[1..]) + "=";
    }
  }

  /** Merging associates with b in the middle, whatever stands left and right, exactly when
      b's keys are distinct. */
  lemma MergeAssociatesIff(b: seq<string>)
    ensures (forall a, c :: MergeEnv(MergeEnv(a, b), c) == MergeEnv(a, MergeEnv(b, c))) <==> Distinct(b)
  {
    if Distinct(b) {
      forall a, c ensures MergeEnv(MergeEnv(a, b), c) == MergeEnv(a, MergeEnv(b, c)) {
        MergeAssociates(a, b, c);
      }
    } else {
      var i, j :| 0 <= i < j < |b| && Key(b[i]) == Key(b[j]);
      var k := Key(b[i]);
      LastOfPresent(b, j);
      KeyOfKey(b[i]);
      var z := if LastOf(b, k) == Some(k) then k + "=" else k;
      LastOfPutRepeated(b, z);
      MergeFirst([], Put(b, z), k);
      PutFirst(MergeEnv([], b), z, k);
      assert [z][1..] == [];
      assert MergeEnv(MergeEnv([], b), [z]) == Put(MergeEnv([], b), z);
      assert MergeEnv(b, [z]) == Put(b, z);
      assert MergeEnv(MergeEnv([], b), [z]) != MergeEnv([], MergeEnv(b, [z]));
    }
  }

  // ----- Configurations -----

  /** None stands for a nil slice, which differs from an empty one. */
  type Slice = Option<seq<string>>

  datatype ImageConfig = ImageConfig(entrypoint: Slice, cmd: Slice, env: Slice, workingDir: string)

  function Items(s: Slice): seq<string> {
    match s
    case None => []
    case Some(v) => v
  }

  /** append([]string(nil), s...): an empty copy is nil. */
  function Copied(s: seq<string>): (r: Slice)
    ensures r != Some([]) && Items(r) == s
  {
    if s == [] then None else Some(s)
  }

  /** ReadImageConfig on an image that has a configuration. */
  function ReadImageConfig(raw: ImageConfig): (r: ImageConfig)
    ensures Items(r.entrypoint) == Items(raw.entrypoint) && Items(r.cmd) == Items(raw.cmd)
    ensures Items(r.env) == Items(raw.env) && r.workingDir == raw.workingDir
    ensures r.entrypoint != Some([]) && r.cmd != Some([]) && r.env != Some([])
  {
    ImageConfig(Copied(Items(raw.entrypoint)), Copied(Items(raw.cmd)), Copied(Items(raw.env)), raw.workingDir)
  }

  function OverEnv(base: Slice, overlay: Slice): Slice {
    match overlay
    case None => base
    case Some(o) => Copied(MergeEnv(Items(base), o))
  }

  function Over<T>(base: Option<T>, overlay: Option<T>): Option<T> {
    if overlay.Some? then overlay else base
  }

  function MergeImageConfig(base: Option<ImageConfig>, overlay: Option<ImageConfig>): Option<ImageConfig> {
    match (base, overlay)
    case (None, _) => overlay
    case (_, None) => base
    case (Some(b), Some(o)) =>
      Some(ImageConfig(
             Over(b.entrypoint, o.entrypoint),
             Over(b.cmd, o.cmd),
             OverEnv(b.env, o.env),
             if o.workingDir != "" then o.workingDir else b.workingDir))
  }

  lemma MergeNothing(a: seq<string>, b: seq<string>)
    ensures MergeEnv(a, b) == [] <==> a == [] && b == []
    decreases |b|
  {
    MergeKeys(a, b);
    assert |Keys(MergeEnv(a, b))| == |MergeEnv(a, b)|;
    if b != [] && a == [] {
      assert |NewKeys([], b)| > 0;
      assert Keys(a) == [];
    }
  }

  /** Merging three environments depends on the grouping only when the outer two are non-nil
      empty lists and the middle one is empty, nil or not. */
  lemma OverEnvAssociatesIff(a: Slice, b: Slice, c: Slice)
    requires Distinct(Items(b))
    ensures OverEnv(OverEnv(a, b), c) == OverEnv(a, OverEnv(b, c)) <==>
            !(a == Some([]) && Items(b) == [] && c == Some([]))
  {
    if c.Some? {
      MergeAssociates(Items(a), Items(b), c.value);
      MergeNothing(Items(b), c.value);
      MergeNothing(Items(a), Items(b));
      MergeNothing(MergeEnv(Items(a), Items(b)), c.value);
    }
  }

  /** Configurations read from images never meet the corner of empty lists. */
  lemma ReadConfigsAssociate(a: ImageConfig, b: ImageConfig, c: ImageConfig)
    requires Distinct(Items(b.env))
    ensures var x, y, z := Some(ReadImageConfig(a)), Some(ReadImageConfig(b)), Some(ReadImageConfig(c));
            MergeImageConfig(MergeImageConfig(x, y), z) == MergeImageConfig(x, MergeImageConfig(y, z))
  {
    MergeConfigAssociates(Some(ReadImageConfig(a)), Some(ReadImageConfig(b)), Some(ReadImageConfig(c)));
  }

  /** The middle configuration's keys are distinct, and the empty-list corner is not hit. */
  ghost predicate Regular(a: Option<ImageConfig>, b: Option<ImageConfig>, c: Option<ImageConfig>) {
    a.Some? && b.Some? && c.Some? ==>
      && Distinct(Items(b.value.env))
      && !(a.value.env == Some([]) && Items(b.value.env) == [] && c.value.env == Some([]))
  }

  /** MergeImageConfig is associative, as exact lists, with nil as identity. */
  lemma MergeConfigAssociates(a: Option<ImageConfig>, b: Option<ImageConfig>, c: Option<ImageConfig>)
    requires Regular(a, b, c)
    ensures MergeImageConfig(MergeImageConfig(a, b), c) == MergeImageConfig(a, MergeImageConfig(b, c))
    ensures MergeImageConfig(None, a) == a == MergeImageConfig(a, None)
  {
    if a.Some? && b.Some? && c.Some? {
      OverEnvAssociatesIff(a.value.env, b.value.env, c.value.env);
    }
  }
}

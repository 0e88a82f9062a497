/** One recorded run of a scenario (src/recorder.js), with the browser
    replaced by a trace of the steps it is asked to take. The URL's
    placeholders are expanded from the environment, every probe gets an
    empty data bucket, `before` hooks run before navigation and `after`
    hooks after it, and the data an `after` hook adds is merged into its
    probe's bucket. */
module Recorder {
  import opened Dict
  import opened JsValue
  import opened Writer

  // ---- expandString ----

  /** `[A-Z_]`. */
  predicate IsNameChar(c: char) {
    'A' <= c <= 'Z' || c == '_'
  }

  /** The length of the run of name characters `s` starts with. */
  function NameLength(s: string): (n: nat)
    ensures n <= |s|
    ensures forall i | 0 <= i < n :: IsNameChar(s[i])
    ensures n < |s| ==> !IsNameChar(s[n])
  {
    if |s| == 0 || !IsNameChar(s[0]) then 0 else 1 + NameLength(s[1..])
  }

  /** A piece of a string as `/{([A-Z_]+)}/g` sees it: a placeholder, or a
      character that is not the start of one. */
  datatype Piece = Char(c: char) | Placeholder(name: string)

  /** The length of the placeholder `s` starts with: `{`, one or more name
      characters, `}`. Since `}` is not a name character the greedy run
      decides it. */
  function PlaceholderLength(s: string): (r: nat)
    ensures r == 0 || (3 <= r <= |s| && s[0] == '{' && s[r - 1] == '}')
    ensures r > 0 ==> forall i | 1 <= i < r - 1 :: IsNameChar(s[i])
  {
    if |s| == 0 || s[0] != '{' then 0
    else
      var n := NameLength(s[1..]);
      if n >= 1 && 1 + n < |s| && s[1 + n] == '}' then n + 2 else 0
  }

  /** The left-to-right scan of the global regex: a placeholder is taken
      whole, and scanning resumes after it. */
  function Pieces(s: string): (ps: seq<Piece>)
    ensures forall i | 0 <= i < |ps| && ps[i].Placeholder? ::
      |ps[i].name| >= 1 && forall j | 0 <= j < |ps[i].name| :: IsNameChar(ps[i].name[j])
    decreases |s|
  {
    if |s| == 0 then []
    else
      var n := PlaceholderLength(s);
      if n > 0 then [Placeholder(s[1..n - 1])] + Pieces(s[n..])
      else [Char(s[0])] + Pieces(s[1..])
  }

  /** The text a piece was scanned from. */
  function Source(p: Piece): string {
    match p
    case Char(c) => [c]
    case Placeholder(name) => "{" + name + "}"
  }

  function Unparse(ps: seq<Piece>): string {
    if |ps| == 0 then "" else Source(ps[0]) + Unparse(ps[1..])
  }

  /** The scan loses nothing: its pieces spell the string back. */
  lemma {:induction false} PiecesRoundTrip(s: string)
    ensures Unparse(Pieces(s)) == s
    decreases |s|
  {
    if |s| > 0 {
      var k := FirstLength(s);
      FirstPieceSpelled(s);
      PiecesRoundTrip(s[k..]);
      UnparseCons(FirstPiece(s), Pieces(s[k..]));
      SplitAt(s, k);
    }
  }

  /** How much of `s` its first piece takes. */
  function FirstLength(s: string): (k: nat)
    requires |s| > 0
    ensures 1 <= k <= |s|
  {
    var n := PlaceholderLength(s);
    if n > 0 then n else 1
  }

  function FirstPiece(s: string): Piece
    requires |s| > 0
  {
    var n := PlaceholderLength(s);
    if n > 0 then Placeholder(s[1..n - 1]) else Char(s[0])
  }

  /** The scan takes the first piece and goes on after it; that piece
      spells the text it took. */
  lemma FirstPieceSpelled(s: string)
    requires |s| > 0
    ensures Pieces(s) == [FirstPiece(s)] + Pieces(s[FirstLength(s)..])
    ensures Source(FirstPiece(s)) == s[..FirstLength(s)]
  {
    SourceOfFirstPiece(s, PlaceholderLength(s));
  }

  lemma SplitAt<T>(s: seq<T>, k: nat)
    requires k <= |s|
    ensures s[..k] + s[k..] == s
  {
  }

  lemma UnparseCons(p: Piece, ps: seq<Piece>)
    ensures Unparse([p] + ps) == Source(p) + Unparse(ps)
  {
    assert ([p] + ps)[1..] == ps;
  }

  /** The first piece spells the text it was scanned from. */
  lemma SourceOfFirstPiece(s: string, n: nat)
    requires |s| > 0 && n == PlaceholderLength(s)
    ensures n > 0 ==> Source(Placeholder(s[1..n - 1])) == s[..n]
    ensures n == 0 ==> Source(Char(s[0])) == s[..1]
  {
    if n > 0 {
      assert s[..n] == [s[0]] + s[1..n - 1] + [s[n - 1]];
    }
  }

  /** `vars[ key ]` as the replacement string: a missing variable reads
      `undefined`. */
  function EnvValue(env: map<string, string>, name: string): string {
    if name in env then env[name] else "undefined"
  }

  /** Placeholders replaced by their values; the values are inserted as they
      are. */
  function Render(ps: seq<Piece>, env: map<string, string>): string {
    if |ps| == 0 then ""
    else
      (match ps[0]
       case Char(c) => [c]
       case Placeholder(name) => EnvValue(env, name))
      + Render(ps[1..], env)
  }

  /** `expandString( str, vars )`. */
  function Expand(s: string, env: map<string, string>): string {
    Render(Pieces(s), env)
  }

  /** A string without `{` has no placeholder and is returned unchanged. */
  lemma NoBraceUnchanged(s: string, env: map<string, string>)
    requires forall i | 0 <= i < |s| :: s[i] != '{'
    ensures Expand(s, env) == s
  {
    NoBraceNoPlaceholder(s);
    PiecesRoundTrip(s);
    RenderOfChars(Pieces(s), env);
  }

  /** Without a `{` every piece is a character. */
  lemma {:induction false} NoBraceNoPlaceholder(s: string)
    ensures (forall i | 0 <= i < |s| :: s[i] != '{') ==>
      forall i | 0 <= i < |Pieces(s)| :: Pieces(s)[i].Char?
    decreases |s|
  {
    if |s| > 0 && forall i | 0 <= i < |s| :: s[i] != '{' {
      NoBraceNoPlaceholder(s[1..]);
      assert Pieces(s) == [Char(s[0])] + Pieces(s[1..]);
    }
  }

  /** Characters render as themselves. */
  lemma {:induction false} RenderOfChars(ps: seq<Piece>, env: map<string, string>)
    requires forall i | 0 <= i < |ps| :: ps[i].Char?
    ensures Render(ps, env) == Unparse(ps)
  {
    if |ps| > 0 {
      RenderOfChars(ps[1..], env);
    }
  }

  /** Pieces are scanned from the front: a character that starts no
      placeholder is kept and the scan moves on by one. */
  lemma ExpandCons(s: string, env: map<string, string>)
    requires |s| > 0 && PlaceholderLength(s) == 0
    ensures Expand(s, env) == [s[0]] + Expand(s[1..], env)
  {
    assert Pieces(s) == [Char(s[0])] + Pieces(s[1..]);
    assert ([Char(s[0])] + Pieces(s[1..]))[1..] == Pieces(s[1..]);
  }

  /** Text without `{` is kept as it is, whatever follows. */
  lemma {:induction false} ExpandPlainPrefix(t: string, rest: string, env: map<string, string>)
    requires forall i | 0 <= i < |t| :: t[i] != '{'
    ensures Expand(t + rest, env) == t + Expand(rest, env)
  {
    if |t| > 0 {
      assert Expand(t + rest, env) == [t[0]] + Expand(t[1..] + rest, env) by {
        assert (t + rest)[0] == t[0];
        assert (t + rest)[1..] == t[1..] + rest;
        ExpandCons(t + rest, env);
      }
      assert Expand(t[1..] + rest, env) == t[1..] + Expand(rest, env) by {
        ExpandPlainPrefix(t[1..], rest, env);
      }
      Associative([t[0]], t[1..], Expand(rest, env));
      assert [t[0]] + t[1..] == t;
    } else {
      assert t + rest == rest;
    }
  }

  /** A placeholder at the front is replaced by its value. */
  lemma ExpandPlaceholder(name: string, rest: string, env: map<string, string>)
    requires |name| >= 1 && forall i | 0 <= i < |name| :: IsNameChar(name[i])
    ensures Expand("{" + name + "}" + rest, env) == EnvValue(env, name) + Expand(rest, env)
  {
    var s := "{" + name + "}" + rest;
    assert s[1..][..|name|] == name;
    NameRun(s[1..], |name|);
    assert PlaceholderLength(s) == |name| + 2;
    assert s[1..|name| + 1] == name;
    assert s[|name| + 2..] == rest;
    assert Pieces(s) == [Placeholder(name)] + Pieces(rest);
    assert ([Placeholder(name)] + Pieces(rest))[1..] == Pieces(rest);
  }

  /** The run of name characters stops at the first other character. */
  lemma {:induction false} NameRun(s: string, n: nat)
    requires n < |s| && !IsNameChar(s[n])
    requires forall i | 0 <= i < n :: IsNameChar(s[i])
    ensures NameLength(s) == n
  {
    if n > 0 {
      NameRun(s[1..], n - 1);
    }
  }

  /** `expandString( 'Hello {PLANET}', { PLANET: 'World' } )` is
      `'Hello World'`. */
  lemma HelloWorld()
    ensures Expand("Hello " + "{" + "PLANET" + "}", map["PLANET" := "World"]) == "Hello " + "World"
  {
    TextThenPlaceholder("Hello ", "PLANET", map["PLANET" := "World"]);
  }

  /** Text without `{` followed by one placeholder. */
  lemma TextThenPlaceholder(t: string, name: string, env: map<string, string>)
    requires forall i | 0 <= i < |t| :: t[i] != '{'
    requires |name| >= 1 && forall i | 0 <= i < |name| :: IsNameChar(name[i])
    ensures Expand(t + "{" + name + "}", env) == t + EnvValue(env, name)
  {
    var p := "{" + name + "}";
    calc {
      Expand(t + "{" + name + "}", env);
      { assert t + "{" + name + "}" == t + p; }
      Expand(t + p, env);
      { ExpandPlainPrefix(t, p, env); }
      t + Expand(p, env);
      { PlaceholderAlone(name, env); }
      t + EnvValue(env, name);
    }
  }

  lemma PlaceholderAlone(name: string, env: map<string, string>)
    requires |name| >= 1 && forall i | 0 <= i < |name| :: IsNameChar(name[i])
    ensures Expand("{" + name + "}", env) == EnvValue(env, name)
  {
    ExpandPlaceholder(name, "", env);
    assert "{" + name + "}" + "" == "{" + name + "}";
    assert Expand("", env) == "";
  }

  /** One pass: an inserted value is not scanned again, and a variable
      missing from the environment is inserted as `undefined`. */
  lemma SinglePass()
    ensures Expand("{A}", map["A" := "{B}", "B" := "x"]) == "{B}"
    ensures Expand("{A}", map[]) == "undefined"
  {
    ExpandPlaceholder("A", "", map["A" := "{B}", "B" := "x"]);
    ExpandPlaceholder("A", "", map[]);
    assert "{" + "A" + "}" + "" == "{A}";
  }

  /** Braces around nothing, around lower-case letters or around other
      characters are not placeholders, and are kept. */
  lemma BracesKept(env: map<string, string>)
    ensures Expand("{" + "}", env) == "{" + "}"
    ensures Expand("{" + "a}", env) == "{" + "a}"
    ensures Expand("{" + "A-B}", env) == "{" + "A-B}"
  {
    BraceKept("}", env);
    BraceKept("a}", env);
    assert NameLength("A-B}") == 1 by {
      NameRun("A-B}", 1);
    }
    BraceKept("A-B}", env);
  }

  /** A `{` that starts no placeholder is kept, and so is the rest when it
      has no `{`. */
  lemma BraceKept(rest: string, env: map<string, string>)
    requires forall i | 0 <= i < |rest| :: rest[i] != '{'
    requires PlaceholderLength("{" + rest) == 0
    ensures Expand("{" + rest, env) == "{" + rest
  {
    ExpandCons("{" + rest, env);
    assert ("{" + rest)[1..] == rest;
    NoBraceUnchanged(rest, env);
  }

  // ---- the data buckets ----

  /** `probe.name` as a key of `datas`. A validated probe's name is a
      string; anything else is keyed `undefined`. */
  function Name(p: Value): string {
    match Prop(p, "name")
    case Str(s) => s
    case _ => "undefined"
  }

  /** `probe.before` or `probe.after` is called when it is set: a validated
      probe holds a function or nothing there. */
  predicate HasHook(p: Value, hook: Hook) {
    Prop(p, HookKey(hook)).Func?
  }

  datatype Hook = BeforeHook | AfterHook

  function HookKey(hook: Hook): string {
    match hook
    case BeforeHook => "before"
    case AfterHook => "after"
  }

  /** The names of a list of probes. */
  predicate Named(probes: seq<Value>, k: string) {
    exists i | 0 <= i < |probes| :: Name(probes[i]) == k
  }

  /** `datas[ probe.name ] = {}` for every probe, in collection order. */
  function Buckets(probes: seq<Value>): (d: Dict<Dict<Value>>)
    ensures forall k :: k in d.vals <==> Named(probes, k)
    ensures forall k | k in d.vals :: d.vals[k] == Empty()
  {
    if |probes| == 0 then Empty()
    else
      var d := Buckets(probes[..|probes| - 1]);
      var r := Put(d, Name(probes[|probes| - 1]), Empty());
      assert forall k :: Named(probes, k) <==> Named(probes[..|probes| - 1], k) || k == Name(probes[|probes| - 1]) by {
        forall k | Named(probes, k) ensures Named(probes[..|probes| - 1], k) || k == Name(probes[|probes| - 1]) {
          var i :| 0 <= i < |probes| && Name(probes[i]) == k;
          if i < |probes| - 1 {
            assert probes[..|probes| - 1][i] == probes[i];
          }
        }
      }
      r
  }

  /** `Object.assign( acc, d )` for each `d` in turn: the reference for what
      a bucket holds after a series of `addData` calls. */
  function Merged(acc: Dict<Value>, ds: seq<Dict<Value>>): Dict<Value>
    decreases |ds|
  {
    if |ds| == 0 then acc else Merged(Assign(acc, ds[0]), ds[1..])
  }

  /** Merging in two steps is merging the concatenation. */
  lemma {:induction false} MergedAppend(acc: Dict<Value>, xs: seq<Dict<Value>>, ys: seq<Dict<Value>>)
    ensures Merged(Merged(acc, xs), ys) == Merged(acc, xs + ys)
    decreases |xs|
  {
    if |xs| > 0 {
      assert Merged(acc, xs + ys) == Merged(Assign(acc, xs[0]), xs[1..] + ys) by {
        assert (xs + ys)[0] == xs[0];
        assert (xs + ys)[1..] == xs[1..] + ys;
      }
      MergedAppend(Assign(acc, xs[0]), xs[1..], ys);
    } else {
      assert xs + ys == ys;
    }
  }

  /** The `addData( data )` calls of one `after` hook, one after another,
      each merging into the bucket of `name`. */
  function AddAll(datas: Dict<Dict<Value>>, name: string, ds: seq<Dict<Value>>): (r: Dict<Dict<Value>>)
    requires name in datas.vals
    ensures r.keys == datas.keys
    ensures r.vals[name] == Merged(datas.vals[name], ds)
    ensures forall k | k in datas.vals && k != name :: r.vals[k] == datas.vals[k]
    decreases |ds|
  {
    if |ds| == 0 then datas
    else AddAll(Put(datas, name, Assign(datas.vals[name], ds[0])), name, ds[1..])
  }

  /** What the `after` hook of a probe passes to `addData`, or nothing when
      it has no `after` hook. */
  function Added(p: Value, calls: seq<Dict<Value>>): seq<Dict<Value>> {
    if HasHook(p, AfterHook) then calls else []
  }

  /** The `after` hooks in collection order; `calls[ i ]` is the argument of
      each `addData` call made by the hook of `probes[ i ]`. */
  function Collect(datas: Dict<Dict<Value>>, probes: seq<Value>, calls: seq<seq<Dict<Value>>>): (r: Dict<Dict<Value>>)
    requires |calls| == |probes|
    requires forall i | 0 <= i < |probes| :: Name(probes[i]) in datas.vals
    ensures r.keys == datas.keys
    decreases |probes|
  {
    if |probes| == 0 then datas
    else
      var d := AddAll(datas, Name(probes[0]), Added(probes[0], calls[0]));
      Collect(d, probes[1..], calls[1..])
  }

  /** Everything the probes named `k` add, in collection order. */
  function Contributions(probes: seq<Value>, calls: seq<seq<Dict<Value>>>, k: string): seq<Dict<Value>>
    requires |calls| == |probes|
  {
    if |probes| == 0 then []
    else
      var own := if Name(probes[0]) == k then Added(probes[0], calls[0]) else [];
      own + Contributions(probes[1..], calls[1..], k)
  }

  /** A bucket ends up as what it held merged with everything added under
      its name. */
  lemma {:induction false} CollectMerges(datas: Dict<Dict<Value>>, probes: seq<Value>, calls: seq<seq<Dict<Value>>>, k: string)
    requires |calls| == |probes|
    requires forall i | 0 <= i < |probes| :: Name(probes[i]) in datas.vals
    requires k in datas.vals
    ensures Collect(datas, probes, calls).vals[k] == Merged(datas.vals[k], Contributions(probes, calls, k))
    decreases |probes|
  {
    if |probes| > 0 {
      var d := AddAll(datas, Name(probes[0]), Added(probes[0], calls[0]));
      CollectMerges(d, probes[1..], calls[1..], k);
      if Name(probes[0]) == k {
        MergedAppend(datas.vals[k], Added(probes[0], calls[0]), Contributions(probes[1..], calls[1..], k));
      } else {
        assert Contributions(probes, calls, k) == Contributions(probes[1..], calls[1..], k);
      }
    }
  }

  // ---- the run ----

  /** The steps a run asks of the browser, with the probe hooks it calls
      and the writer each hook is given. */
  datatype Step =
    | CreateContext               // `browser.createIncognitoBrowserContext()`
    | NewPage                     // `context.newPage()`
    | SetViewport(viewport: Value)
    | Before(probe: string, writer: Writer)
    | Navigate(url: string)       // `progress( 'recorder/navigate', url )` and `page.goto( url )`
    | After(probe: string, writer: Writer)
    | CloseContext                // `context.close()`

  /** A hook call of `probe` with its writer `writer.prefix( probe.name + '--' )`. */
  function HookStep(hook: Hook, p: Value, w: Writer): Step {
    var name := Name(p);
    match hook
    case BeforeHook => Before(name, Prefix(w, name + "--"))
    case AfterHook => After(name, Prefix(w, name + "--"))
  }

  /** The chained hook calls: every probe in collection order, skipping one
      without the hook. */
  function HookSteps(probes: seq<Value>, hook: Hook, w: Writer): seq<Step> {
    if |probes| == 0 then []
    else OwnHookStep(probes[0], hook, w) + HookSteps(probes[1..], hook, w)
  }

  /** The call of one probe's hook, when it has one. */
  function OwnHookStep(p: Value, hook: Hook, w: Writer): seq<Step> {
    if HasHook(p, hook) then [HookStep(hook, p, w)] else []
  }

  datatype RunResult = RunResult(steps: seq<Step>, datas: Dict<Dict<Value>>)

  /** `run( options, probes, writer, browser, progress )`: `calls[ i ]`
      holds what the `after` hook of `probes[ i ]` passes to `addData`. */
  function Run(url: string, viewport: Value, probes: seq<Value>, w: Writer,
               env: map<string, string>, calls: seq<seq<Dict<Value>>>): (r: RunResult)
    requires |calls| == |probes|
    ensures forall k :: k in r.datas.vals <==> Named(probes, k)
  {
    var steps := [CreateContext, NewPage, SetViewport(viewport)]
      + HookSteps(probes, BeforeHook, w)
      + [Navigate(Expand(url, env))]
      + HookSteps(probes, AfterHook, w)
      + [CloseContext];
    var datas := Buckets(probes);
    RunResult(steps, Collect(datas, probes, calls))
  }

  /** `warmup( options, browser )`. */
  function Warmup(url: string, viewport: Value, env: map<string, string>): seq<Step> {
    [CreateContext, NewPage, SetViewport(viewport), Navigate(Expand(url, env)), CloseContext]
  }

  // ---- properties of the run ----

  /** Every probe's bucket is everything its `after` hooks added, merged
      into an empty object in call order. */
  lemma RunBuckets(url: string, viewport: Value, probes: seq<Value>, w: Writer,
                   env: map<string, string>, calls: seq<seq<Dict<Value>>>, k: string)
    requires |calls| == |probes| && Named(probes, k)
    ensures var r := Run(url, viewport, probes, w, env, calls);
      k in r.datas.vals && r.datas.vals[k] == Merged(Empty(), Contributions(probes, calls, k))
  {
    CollectMerges(Buckets(probes), probes, calls, k);
  }

  /** A probe that adds nothing has an empty bucket. */
  lemma {:induction false} NothingContributed(probes: seq<Value>, calls: seq<seq<Dict<Value>>>, k: string)
    requires |calls| == |probes|
    requires forall i | 0 <= i < |probes| && Name(probes[i]) == k :: !HasHook(probes[i], AfterHook) || calls[i] == []
    ensures Contributions(probes, calls, k) == []
  {
    if |probes| > 0 {
      NothingContributed(probes[1..], calls[1..], k);
    }
  }

  lemma SilentProbeHasEmptyBucket(url: string, viewport: Value, probes: seq<Value>, w: Writer,
                                  env: map<string, string>, calls: seq<seq<Dict<Value>>>, k: string)
    requires |calls| == |probes| && Named(probes, k)
    requires forall i | 0 <= i < |probes| && Name(probes[i]) == k :: !HasHook(probes[i], AfterHook) || calls[i] == []
    ensures Run(url, viewport, probes, w, env, calls).datas.vals[k] == Empty()
  {
    RunBuckets(url, viewport, probes, w, env, calls, k);
    NothingContributed(probes, calls, k);
  }

  lemma Associative<T>(a: seq<T>, b: seq<T>, c: seq<T>)
    ensures a + (b + c) == (a + b) + c
  {
  }

  /** The hook calls of a longer list are those of its parts, in order. */
  lemma {:induction false} HookStepsAppend(a: seq<Value>, b: seq<Value>, hook: Hook, w: Writer)
    ensures HookSteps(a + b, hook, w) == HookSteps(a, hook, w) + HookSteps(b, hook, w)
  {
    if |a| == 0 {
      assert a + b == b;
    } else {
      var own := OwnHookStep(a[0], hook, w);
      assert HookSteps(a + b, hook, w) == own + HookSteps(a[1..] + b, hook, w) by {
        assert (a + b)[0] == a[0];
        assert (a + b)[1..] == a[1..] + b;
      }
      assert HookSteps(a[1..] + b, hook, w) == HookSteps(a[1..], hook, w) + HookSteps(b, hook, w) by {
        HookStepsAppend(a[1..], b, hook, w);
      }
      Associative(own, HookSteps(a[1..], hook, w), HookSteps(b, hook, w));
    }
  }

  /** A hook is called once for every probe that has it, with the probe's
      name and writer, and for no one else. */
  lemma {:induction false} HookStepsAreTheHooks(probes: seq<Value>, hook: Hook, w: Writer, s: Step)
    ensures s in HookSteps(probes, hook, w) <==>
      exists i | 0 <= i < |probes| :: HasHook(probes[i], hook) && s == HookStep(hook, probes[i], w)
  {
    if |probes| > 0 {
      HookStepsAreTheHooks(probes[1..], hook, w, s);
      if s in HookSteps(probes[1..], hook, w) {
        var i :| 0 <= i < |probes[1..]| && HasHook(probes[1..][i], hook) && s == HookStep(hook, probes[1..][i], w);
        assert HasHook(probes[i + 1], hook) && s == HookStep(hook, probes[i + 1], w);
      }
      if exists i | 0 <= i < |probes| :: HasHook(probes[i], hook) && s == HookStep(hook, probes[i], w) {
        var i :| 0 <= i < |probes| && HasHook(probes[i], hook) && s == HookStep(hook, probes[i], w);
        if i > 0 {
          assert probes[1..][i - 1] == probes[i];
        }
      }
    }
  }

  /** The position of a step in the order a run takes. */
  function Phase(s: Step): nat {
    match s
    case CreateContext => 0
    case NewPage => 1
    case SetViewport(_) => 2
    case Before(_, _) => 3
    case Navigate(_) => 4
    case After(_, _) => 5
    case CloseContext => 6
  }

  predicate InOrder(steps: seq<Step>) {
    forall i, j | 0 <= i <= j < |steps| :: Phase(steps[i]) <= Phase(steps[j])
  }

  lemma {:induction false} HookStepsPhase(probes: seq<Value>, hook: Hook, w: Writer)
    ensures forall i | 0 <= i < |HookSteps(probes, hook, w)| ::
      Phase(HookSteps(probes, hook, w)[i]) == (if hook == BeforeHook then 3 else 5)
  {
    if |probes| > 0 {
      HookStepsPhase(probes[1..], hook, w);
    }
  }

  /** No step is later than phase `p`. */
  predicate NoLaterThan(steps: seq<Step>, p: nat) {
    forall i | 0 <= i < |steps| :: Phase(steps[i]) <= p
  }

  /** No step is earlier than phase `p`. */
  predicate NoEarlierThan(steps: seq<Step>, p: nat) {
    forall i | 0 <= i < |steps| :: p <= Phase(steps[i])
  }

  /** Hook calls all sit in the hook's phase. */
  lemma HookStepsBounds(probes: seq<Value>, hook: Hook, w: Writer, p: nat)
    requires p == if hook == BeforeHook then 3 else 5
    ensures InOrder(HookSteps(probes, hook, w))
    ensures NoLaterThan(HookSteps(probes, hook, w), p)
    ensures NoEarlierThan(HookSteps(probes, hook, w), p)
  {
    HookStepsPhase(probes, hook, w);
  }

  lemma SetupInOrder(viewport: Value)
    ensures InOrder([CreateContext, NewPage, SetViewport(viewport)])
    ensures NoLaterThan([CreateContext, NewPage, SetViewport(viewport)], 3)
  {
  }

  lemma SingleStep(x: Step, p: nat)
    requires Phase(x) == p
    ensures InOrder([x]) && NoLaterThan([x], p) && NoEarlierThan([x], p)
  {
  }

  lemma LaterBoundWeakens(steps: seq<Step>, p: nat, q: nat)
    requires NoLaterThan(steps, p) && p <= q
    ensures NoLaterThan(steps, q)
  {
  }

  lemma EarlierBoundWeakens(steps: seq<Step>, p: nat, q: nat)
    requires NoEarlierThan(steps, p) && q <= p
    ensures NoEarlierThan(steps, q)
  {
  }

  lemma EarlierAppend(a: seq<Step>, b: seq<Step>, p: nat)
    requires NoEarlierThan(a, p) && NoEarlierThan(b, p)
    ensures NoEarlierThan(a + b, p)
  {
    forall i | 0 <= i < |a + b|
      ensures p <= Phase((a + b)[i])
    {
      if i >= |a| {
        assert (a + b)[i] == b[i - |a|];
      }
    }
  }

  lemma InOrderAppend(a: seq<Step>, b: seq<Step>, p: nat)
    requires InOrder(a) && InOrder(b)
    requires NoLaterThan(a, p) && NoEarlierThan(b, p)
    ensures InOrder(a + b)
  {
    forall i, j | 0 <= i <= j < |a + b|
      ensures Phase((a + b)[i]) <= Phase((a + b)[j])
    {
      if j < |a| {
        assert (a + b)[i] == a[i] && (a + b)[j] == a[j];
      } else if i >= |a| {
        assert (a + b)[i] == b[i - |a|] && (a + b)[j] == b[j - |a|];
      } else {
        assert (a + b)[i] == a[i] && (a + b)[j] == b[j - |a|];
      }
    }
  }

  /** The steps of a run, by their parts. */
  lemma RunStepsParts(url: string, viewport: Value, probes: seq<Value>, w: Writer,
                      env: map<string, string>, calls: seq<seq<Dict<Value>>>)
    requires |calls| == |probes|
    ensures Run(url, viewport, probes, w, env, calls).steps ==
      ([CreateContext, NewPage, SetViewport(viewport)] + HookSteps(probes, BeforeHook, w))
      + ([Navigate(Expand(url, env))] + (HookSteps(probes, AfterHook, w) + [CloseContext]))
  {
  }

  /** A run creates a context, opens a page and sets the viewport, calls
      the `before` hooks, navigates, calls the `after` hooks and closes the
      context, in that order. */
  lemma RunStepsInOrder(url: string, viewport: Value, probes: seq<Value>, w: Writer,
                        env: map<string, string>, calls: seq<seq<Dict<Value>>>)
    requires |calls| == |probes|
    ensures var steps := Run(url, viewport, probes, w, env, calls).steps;
      && InOrder(steps)
      && steps[..3] == [CreateContext, NewPage, SetViewport(viewport)]
      && steps[|steps| - 1] == CloseContext
  {
    var before := HookSteps(probes, BeforeHook, w);
    var after := HookSteps(probes, AfterHook, w);
    var head := [CreateContext, NewPage, SetViewport(viewport)];
    var nav := [Navigate(Expand(url, env))];
    var front := head + before;
    var back := nav + (after + [CloseContext]);
    assert Run(url, viewport, probes, w, env, calls).steps == front + back by {
      RunStepsParts(url, viewport, probes, w, env, calls);
    }
    FrontInOrder(viewport, probes, w);
    BackInOrder(Expand(url, env), probes, w);
    InOrderAppend(front, back, 4);
    assert (front + back)[..3] == head by {
      PrefixOfConcat(head, before);
      PrefixOfConcat(front, back);
    }
    assert (front + back)[|front + back| - 1] == CloseContext by {
      LastOfConcat(after, [CloseContext]);
      LastOfConcat(nav, after + [CloseContext]);
      LastOfConcat(front, back);
    }
  }

  /** Setting up, then the `before` hooks. */
  lemma FrontInOrder(viewport: Value, probes: seq<Value>, w: Writer)
    ensures InOrder([CreateContext, NewPage, SetViewport(viewport)] + HookSteps(probes, BeforeHook, w))
    ensures NoLaterThan([CreateContext, NewPage, SetViewport(viewport)] + HookSteps(probes, BeforeHook, w), 4)
  {
    var head := [CreateContext, NewPage, SetViewport(viewport)];
    var before := HookSteps(probes, BeforeHook, w);
    HookStepsBounds(probes, BeforeHook, w, 3);
    SetupInOrder(viewport);
    InOrderAppend(head, before, 3);
    FrontPhases(viewport, probes, w);
    LaterBoundWeakens(head + before, 3, 4);
  }

  /** Navigating, then the `after` hooks, then tearing down. */
  lemma BackInOrder(target: string, probes: seq<Value>, w: Writer)
    ensures InOrder([Navigate(target)] + (HookSteps(probes, AfterHook, w) + [CloseContext]))
    ensures NoEarlierThan([Navigate(target)] + (HookSteps(probes, AfterHook, w) + [CloseContext]), 4)
  {
    var after := HookSteps(probes, AfterHook, w);
    var rest := after + [CloseContext];
    assert InOrder(rest) && NoEarlierThan(rest, 4) by {
      HookStepsBounds(probes, AfterHook, w, 5);
      LaterBoundWeakens(after, 5, 6);
      SingleStep(CloseContext, 6);
      InOrderAppend(after, [CloseContext], 6);
      BackPhases(probes, w);
      EarlierBoundWeakens(rest, 5, 4);
    }
    SingleStep(Navigate(target), 4);
    InOrderAppend([Navigate(target)], rest, 4);
    EarlierAppend([Navigate(target)], rest, 4);
  }

  lemma PrefixOfConcat<T>(a: seq<T>, b: seq<T>)
    ensures (a + b)[..|a|] == a
  {
  }

  lemma LastOfConcat<T>(a: seq<T>, b: seq<T>)
    requires |b| > 0
    ensures (a + b)[|a + b| - 1] == b[|b| - 1]
  {
  }

  /** In steps that are hooks-or-setup, then one navigation, then hooks-or-
      teardown, the navigation is the only one and divides the hooks. */
  lemma NavigationDivides(front: seq<Step>, x: Step, back: seq<Step>)
    requires x.Navigate?
    requires NoLaterThan(front, 3) && NoEarlierThan(back, 5)
    ensures var steps := front + ([x] + back);
      && (forall i | 0 <= i < |steps| && steps[i].Navigate? :: i == |front|)
      && (forall i | 0 <= i < |steps| && steps[i].Before? :: i < |front|)
      && (forall i | 0 <= i < |steps| && steps[i].After? :: |front| < i)
  {
    var steps := front + ([x] + back);
    forall i | 0 <= i < |steps|
      ensures steps[i].Navigate? ==> i == |front|
      ensures steps[i].Before? ==> i < |front|
      ensures steps[i].After? ==> |front| < i
    {
      if i < |front| {
        assert steps[i] == front[i];
      } else if i > |front| {
        assert steps[i] == back[i - |front| - 1];
      }
    }
  }

  lemma FrontPhases(viewport: Value, probes: seq<Value>, w: Writer)
    ensures NoLaterThan([CreateContext, NewPage, SetViewport(viewport)] + HookSteps(probes, BeforeHook, w), 3)
  {
    var before := HookSteps(probes, BeforeHook, w);
    HookStepsPhase(probes, BeforeHook, w);
    var front := [CreateContext, NewPage, SetViewport(viewport)] + before;
    forall i | 0 <= i < |front| ensures Phase(front[i]) <= 3 {
      if i >= 3 {
        assert front[i] == before[i - 3];
      }
    }
  }

  lemma BackPhases(probes: seq<Value>, w: Writer)
    ensures NoEarlierThan(HookSteps(probes, AfterHook, w) + [CloseContext], 5)
  {
    var after := HookSteps(probes, AfterHook, w);
    HookStepsPhase(probes, AfterHook, w);
    var back := after + [CloseContext];
    forall i | 0 <= i < |back| ensures Phase(back[i]) >= 5 {
      if i < |after| {
        assert back[i] == after[i];
      }
    }
  }

  /** A run navigates exactly once, to the URL with its placeholders
      expanded, after every `before` hook and before every `after` hook. */
  lemma NavigatesOnce(url: string, viewport: Value, probes: seq<Value>, w: Writer,
                      env: map<string, string>, calls: seq<seq<Dict<Value>>>)
    returns (n: nat)
    requires |calls| == |probes|
    ensures var steps := Run(url, viewport, probes, w, env, calls).steps;
      && n < |steps| && steps[n] == Navigate(Expand(url, env))
      && (forall i | 0 <= i < |steps| && steps[i].Navigate? :: i == n)
      && (forall i | 0 <= i < |steps| && steps[i].Before? :: i < n)
      && (forall i | 0 <= i < |steps| && steps[i].After? :: n < i)
  {
    RunStepsParts(url, viewport, probes, w, env, calls);
    var front := [CreateContext, NewPage, SetViewport(viewport)] + HookSteps(probes, BeforeHook, w);
    var back := HookSteps(probes, AfterHook, w) + [CloseContext];
    FrontPhases(viewport, probes, w);
    BackPhases(probes, w);
    NavigationDivides(front, Navigate(Expand(url, env)), back);
    n := |front|;
  }

  /** A warmup calls no probe hook: it is a run without probes. */
  lemma WarmupRunsNoProbes(url: string, viewport: Value, w: Writer, env: map<string, string>)
    ensures Warmup(url, viewport, env) == Run(url, viewport, [], w, env, []).steps
    ensures forall i | 0 <= i < |Warmup(url, viewport, env)| ::
      !Warmup(url, viewport, env)[i].Before? && !Warmup(url, viewport, env)[i].After?
  {
  }
}

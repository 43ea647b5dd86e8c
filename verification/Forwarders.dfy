/** Resolving an export through the forwarders of the loaded modules. */
module Forwarders {
  import opened Bytes
  import opened Wrappers

  datatype ModuleRecord = ModuleRecord(base: nat, name: string, generation: nat)
  type Modules = map<nat, ModuleRecord>

  /** What the export table of a module says about a name: an address, or if that is null a forwarder. */
  datatype RemoteExport = RemoteExport(address: Word64, forwarder: string)
  type Exports = (nat, string) -> Option<RemoteExport>

  datatype Resolution = Resolved(address: nat, target: nat) | Pending | Error

  // ---------------------------------------------------------------- names

  /** The position of the last character of `s` among `chars`. */
  function LastOf(s: string, chars: string): (r: Option<nat>)
    ensures r.Some? ==>
      && r.value < |s| && s[r.value] in chars
      && forall i :: r.value < i < |s| ==> s[i] !in chars
    ensures r.None? ==> forall i :: 0 <= i < |s| ==> s[i] !in chars
  {
    if s == [] then None
    else if s[|s| - 1] in chars then Some(|s| - 1)
    else LastOf(s[..|s| - 1], chars)
  }

  function ToLower(c: char): char { if 'A' <= c <= 'Z' then (c as int + 32) as char else c }

  predicate IsSeparator(c: char) { c == '\\' || c == '/' }

  /** The part behind the last separator, in lower case. */
  function NormalizeModuleName(name: string): string {
    if name == "" || IsSeparator(name[|name| - 1]) then ""
    else NormalizeModuleName(name[..|name| - 1]) + [ToLower(name[|name| - 1])]
  }

  lemma {:induction false} NormalizeTakesFileName(name: string)
    ensures
      var start := |name| - |NormalizeModuleName(name)|;
      && 0 <= start && (start > 0 ==> IsSeparator(name[start - 1]))
      && forall i :: start <= i < |name| ==>
           !IsSeparator(name[i]) && NormalizeModuleName(name)[i - start] == ToLower(name[i])
  {
    if name != "" && !IsSeparator(name[|name| - 1]) {
      NormalizeTakesFileName(name[..|name| - 1]);
    }
  }

  predicate Normal(name: string) {
    forall i :: 0 <= i < |name| ==> !IsSeparator(name[i]) && ToLower(name[i]) == name[i]
  }

  lemma LowerIsNormal(c: char)
    requires !IsSeparator(c)
    ensures !IsSeparator(ToLower(c)) && ToLower(ToLower(c)) == ToLower(c)
  {
  }

  /** Normalising gives a lower-case file name, and does nothing to one. */
  lemma NormalizeIsIdempotent(name: string)
    ensures Normal(NormalizeModuleName(name))
    ensures Normal(name) ==> NormalizeModuleName(name) == name
  {
    NormalizeTakesFileName(name);
    var r := NormalizeModuleName(name);
    var start := |name| - |r|;
    forall i | 0 <= i < |r| ensures !IsSeparator(r[i]) && ToLower(r[i]) == r[i] {
      assert r[i] == ToLower(name[start + i]);
      LowerIsNormal(name[start + i]);
    }
    if Normal(name) {
      assert start == 0;
      assert forall i :: 0 <= i < |name| ==> r[i] == name[i];
    }
  }

  function Qualified(name: string): string {
    var normalized := NormalizeModuleName(name);
    if '.' in normalized then normalized else normalized + ".dll"
  }

  /** The name a module is recorded by: that of its file or, if there is none, the one read from its image. */
  function RecordedName(path: string, remoteName: string): string {
    if NormalizeModuleName(path) != "" then NormalizeModuleName(path) else NormalizeModuleName(remoteName)
  }

  // ---------------------------------------------------------------- one lookup

  ghost predicate IsNewest(modules: Modules, name: string, base: nat) {
    && base in modules && modules[base].name == name
    && forall b :: b in modules && modules[b].name == name ==> modules[b].generation <= modules[base].generation
  }

  /** Later loads have later generations. */
  ghost predicate Generations(modules: Modules) { forall a, b :: ToldApart(modules, a, b) }

  predicate ToldApart(modules: Modules, a: nat, b: nat) {
    a in modules && b in modules && modules[a].generation == modules[b].generation ==> a == b
  }

  ghost function Newest(modules: Modules, name: string): Option<nat> {
    if exists base :: IsNewest(modules, name, base)
    then var base :| IsNewest(modules, name, base); Some(base)
    else None
  }

  lemma NewestIsUnique(modules: Modules, name: string, base: nat)
    requires Generations(modules) && IsNewest(modules, name, base)
    ensures Newest(modules, name) == Some(base)
  {
    var found := Newest(modules, name).value;
    assert ToldApart(modules, base, found);
  }

  /** An export by the name the resolver knows it by. */
  datatype Node = Node(library: string, name: string)

  datatype Hop = NotLoaded | Dead | Found(address: nat, target: nat) | Goes(next: Node)

  /** A forwarder is a module name, a dot and an export name; an ordinal or an empty part is not supported. */
  function ParseForwarder(text: string): Hop {
    var separator := LastOf(text, ".");
    if separator.None? || separator.value == 0 || separator.value + 1 >= |text| || text[separator.value + 1] == '#'
    then Dead
    else Goes(Node(Qualified(text[..separator.value]), text[separator.value + 1..]))
  }

  ghost function HopFrom(modules: Modules, exports: Exports, x: Node): Hop {
    match Newest(modules, x.library)
    case None => NotLoaded
    case Some(base) =>
      match exports(base, x.name)
      case None => Dead
      case Some(e) => if e.address != 0 then Found(e.address, base) else ParseForwarder(e.forwarder)
  }

  /** The lookups themselves are all that the walks below depend on. */
  type Hops = Node -> Hop

  ghost function HopsOf(modules: Modules, exports: Exports): Hops { x => HopFrom(modules, exports, x) }

  // ---------------------------------------------------------------- chains of lookups

  const MAX_HOPS := 8

  /** Follow the forwarders for at most `n` lookups, without looking back. */
  ghost function Follow(hops: Hops, x: Node, n: nat): Resolution
    decreases n, x
  {
    if n == 0 then Error
    else
      match hops(x)
      case NotLoaded => Pending
      case Dead => Error
      case Found(address, target) => Resolved(address, target)
      case Goes(next) => Follow(hops, next, n - 1)
  }

  /** Where `k` forwarders lead. */
  ghost function Nth(hops: Hops, x: Node, k: nat): Option<Node>
    decreases k, x
  {
    if k == 0 then Some(x)
    else
      match hops(x)
      case Goes(next) => Nth(hops, next, k - 1)
      case _ => None
  }

  /** The first lookup that is not a forwarder settles the resolution. */
  ghost predicate EndsIn(hops: Hops, x: Node, n: nat, last: Hop) {
    exists k: nat :: k < n && EndsAt(hops, x, k, last)
  }

  ghost predicate EndsAt(hops: Hops, x: Node, k: nat, last: Hop) {
    var y := Nth(hops, x, k);
    y.Some? && hops(y.value) == last
  }

  lemma {:induction false} FollowReaches(
    hops: Hops, x: Node, n: nat, last: Hop, k: nat)
    requires k < n && !last.Goes? && EndsAt(hops, x, k, last)
    ensures Follow(hops, x, n) ==
      match last
      case NotLoaded => Pending
      case Dead => Error
      case Found(address, target) => Resolved(address, target)
      case Goes(_) => Error
    decreases k
  {
    if k > 0 {
      var next := hops(x).next;
      assert EndsAt(hops, next, k - 1, last);
      FollowReaches(hops, next, n - 1, last, k - 1);
    }
  }

  lemma {:induction false} FollowCameFrom(hops: Hops, x: Node, n: nat)
    ensures
      match Follow(hops, x, n)
      case Resolved(address, target) => EndsIn(hops, x, n, Found(address, target))
      case Pending => EndsIn(hops, x, n, NotLoaded)
      case Error => true
    decreases n
  {
    if n > 0 {
      match hops(x)
      case Goes(next) =>
        FollowCameFrom(hops, next, n - 1);
        var r := Follow(hops, next, n - 1);
        if !r.Error? {
          var last := if r.Pending? then NotLoaded else Found(r.address, r.target);
          var k: nat :| k < n - 1 && EndsAt(hops, next, k, last);
          assert EndsAt(hops, x, k + 1, last);
        }
      case hop =>
        assert EndsAt(hops, x, 0, hop);
    }
  }

  /** Resolved and Pending say exactly how the chain of at most `n` lookups ends; everything else is an error. */
  lemma FollowMeans(hops: Hops, x: Node, n: nat, address: nat, target: nat)
    ensures Follow(hops, x, n) == Resolved(address, target) <==>
      EndsIn(hops, x, n, Found(address, target))
    ensures Follow(hops, x, n) == Pending <==> EndsIn(hops, x, n, NotLoaded)
  {
    FollowCameFrom(hops, x, n);
    if EndsIn(hops, x, n, Found(address, target)) {
      var k: nat :| k < n && EndsAt(hops, x, k, Found(address, target));
      FollowReaches(hops, x, n, Found(address, target), k);
    }
    if EndsIn(hops, x, n, NotLoaded) {
      var k: nat :| k < n && EndsAt(hops, x, k, NotLoaded);
      FollowReaches(hops, x, n, NotLoaded, k);
    }
  }

  lemma {:induction false} FollowSkips(hops: Hops, x: Node, k: nat, n: nat)
    requires Nth(hops, x, k).Some?
    ensures Follow(hops, x, n) ==
      if n <= k then Error else Follow(hops, Nth(hops, x, k).value, n - k)
    decreases k
  {
    if k > 0 && n > 0 {
      FollowSkips(hops, hops(x).next, k - 1, n - 1);
    }
  }

  /** A forwarder cycle is an error however many lookups are allowed. */
  lemma {:induction false} CycleIsError(hops: Hops, x: Node, period: nat, n: nat)
    requires period > 0 && Nth(hops, x, period) == Some(x)
    ensures Follow(hops, x, n) == Error
    decreases n
  {
    FollowSkips(hops, x, period, n);
    if n > period {
      CycleIsError(hops, x, period, n - period);
    }
  }

  // ---------------------------------------------------------------- looking back

  function Identity(x: Node): string { x.library + "!" + x.name }

  /** The walk the code does: it also stops when it meets an identity again. */
  ghost function Walk(hops: Hops, x: Node, n: nat, visited: set<string>): Resolution
    decreases n, x
  {
    if n == 0 || Identity(x) in visited then Error
    else
      match hops(x)
      case NotLoaded => Pending
      case Dead => Error
      case Found(address, target) => Resolved(address, target)
      case Goes(next) => Walk(hops, next, n - 1, visited + {Identity(x)})
  }

  /** One lookup of the walk. */
  lemma WalkOnce(hops: Hops, x: Node, n: nat, visited: set<string>, hop: Hop)
    requires hop == hops(x)
    ensures Walk(hops, x, n, visited) ==
      if n == 0 || Identity(x) in visited then Error
      else
        match hop
        case NotLoaded => Pending
        case Dead => Error
        case Found(address, target) => Resolved(address, target)
        case Goes(next) => Walk(hops, next, n - 1, visited + {Identity(x)})
  {
  }

  datatype HookDefinition = HookDefinition(
    moduleName: string, exportName: string, handlerExport: string, trampolineExport: string, canonicalName: string)

  /** Where a hook would go, given what is loaded. */
  ghost function HookResolution(modules: Modules, exports: Exports, d: HookDefinition): Resolution {
    if Newest(modules, d.moduleName).None? then Pending
    else Walk(HopsOf(modules, exports), Node(Qualified(d.moduleName), d.exportName), MAX_HOPS, {})
  }

  ghost predicate Revisits(hops: Hops, x: Node, n: nat, visited: set<string>)
    decreases n, x
  {
    n > 0 &&
    (Identity(x) in visited ||
     match hops(x)
     case Goes(next) => Revisits(hops, next, n - 1, visited + {Identity(x)})
     case _ => false)
  }

  /** Looking back only ever turns an answer into an error, exactly when an identity comes up twice. */
  lemma {:induction false} WalkIsFollowUnlessRevisited(
    hops: Hops, x: Node, n: nat, visited: set<string>)
    ensures Walk(hops, x, n, visited) ==
      if Revisits(hops, x, n, visited) then Error else Follow(hops, x, n)
    decreases n
  {
    if n > 0 && Identity(x) !in visited {
      match hops(x)
      case Goes(next) =>
        WalkIsFollowUnlessRevisited(hops, next, n - 1, visited + {Identity(x)});
      case _ =>
    }
  }

  lemma IdentityIsInjective(x: Node, y: Node)
    requires Identity(x) == Identity(y) && '!' !in x.library && '!' !in y.library
    ensures x == y
  {
    var s := Identity(x);
    assert s[|x.library|] == '!' && s[|y.library|] == '!';
    NoMarkInside(s, x.library, |y.library|);
    NoMarkInside(s, y.library, |x.library|);
    assert x.library == s[..|x.library|] && x.name == s[|x.library| + 1..];
    assert y.library == s[..|y.library|] && y.name == s[|y.library| + 1..];
  }

  lemma NoMarkInside(s: string, library: string, k: nat)
    requires library <= s && '!' !in library && k < |s| && s[k] == '!'
    ensures k >= |library|
  {
    forall i | 0 <= i < |library| ensures s[i] != '!' {
      assert s[i] == library[i] && library[i] in library;
    }
  }

  /** No module name among the first `n` nodes of the chain contains an exclamation mark. */
  ghost predicate PlainChain(hops: Hops, x: Node, n: nat) {
    forall k: nat :: k < n && Nth(hops, x, k).Some? ==>
      '!' !in Nth(hops, x, k).value.library
  }

  /** Every visited identity belongs to a plain node from which forwarders lead to `x`. */
  ghost predicate LedHere(hops: Hops, visited: set<string>, x: Node) {
    forall v :: v in visited ==> exists y: Node, k: nat :: CameFrom(hops, v, y, k, x)
  }

  ghost predicate CameFrom(hops: Hops, v: string, y: Node, k: nat, x: Node) {
    v == Identity(y) && '!' !in y.library && k > 0 && Nth(hops, y, k) == Some(x)
  }

  lemma {:induction false} NthStep(hops: Hops, y: Node, k: nat, x: Node)
    requires Nth(hops, y, k) == Some(x)
    ensures Nth(hops, y, k + 1) ==
      match hops(x)
      case Goes(next) => Some(next)
      case _ => None
    decreases k
  {
    if k == 0 {
      match hops(x)
      case Goes(next) => assert Nth(hops, next, 0) == Some(next);
      case _ =>
    } else {
      NthStep(hops, hops(y).next, k - 1, x);
    }
  }

  lemma PlainTail(hops: Hops, x: Node, n: nat)
    requires n > 0 && PlainChain(hops, x, n) && hops(x).Goes?
    ensures PlainChain(hops, hops(x).next, n - 1)
  {
    var next := hops(x).next;
    forall k: nat | k < n - 1 && Nth(hops, next, k).Some?
      ensures '!' !in Nth(hops, next, k).value.library
    {
      assert Nth(hops, x, k + 1) == Nth(hops, next, k);
    }
  }

  lemma LedOneFurther(hops: Hops, visited: set<string>, x: Node)
    requires LedHere(hops, visited, x) && '!' !in x.library && hops(x).Goes?
    ensures LedHere(hops, visited + {Identity(x)}, hops(x).next)
  {
    var next := hops(x).next;
    forall v | v in visited + {Identity(x)}
      ensures exists y: Node, k: nat :: CameFrom(hops, v, y, k, next)
    {
      if v in visited {
        var y: Node, k: nat :| CameFrom(hops, v, y, k, x);
        NthStep(hops, y, k, x);
        assert CameFrom(hops, v, y, k + 1, next);
      } else {
        NthStep(hops, x, 0, x);
        assert CameFrom(hops, v, x, 1, next);
      }
    }
  }

  /** The loop check agrees with the bound on lookups: it never changes the outcome for plain module names. */
  lemma {:induction false} WalkIsFollow(
    hops: Hops, x: Node, n: nat, visited: set<string>)
    requires PlainChain(hops, x, n) && LedHere(hops, visited, x)
    ensures Walk(hops, x, n, visited) == Follow(hops, x, n)
    decreases n
  {
    if n > 0 {
      assert Nth(hops, x, 0) == Some(x);
      if Identity(x) in visited {
        var y: Node, k: nat :| CameFrom(hops, Identity(x), y, k, x);
        IdentityIsInjective(x, y);
        CycleIsError(hops, x, k, n);
      } else if hops(x).Goes? {
        PlainTail(hops, x, n);
        LedOneFurther(hops, visited, x);
        WalkIsFollow(
          hops, hops(x).next, n - 1, visited + {Identity(x)});
      }
    }
  }

  /** Node `i` of the chain from `x` has the identity of `y`. */
  ghost predicate SharesAt(hops: Hops, x: Node, i: nat, y: Node) {
    Nth(hops, x, i).Some? && Identity(Nth(hops, x, i).value) == Identity(y)
  }

  ghost predicate RepeatsAt(hops: Hops, x: Node, j: nat, visited: set<string>) {
    var y := Nth(hops, x, j);
    y.Some? && (Identity(y.value) in visited || exists i: nat :: i < j && SharesAt(hops, x, i, y.value))
  }

  lemma RepeatsLater(hops: Hops, x: Node, j: nat, visited: set<string>)
    requires hops(x).Goes?
    ensures RepeatsAt(hops, x, j + 1, visited) <==> RepeatsAt(hops, hops(x).next, j, visited + {Identity(x)})
  {
    var next := hops(x).next;
    assert Nth(hops, x, j + 1) == Nth(hops, next, j) && Nth(hops, x, 0) == Some(x);
    var y := Nth(hops, next, j);
    if y.Some? {
      if i: nat :| i < j + 1 && SharesAt(hops, x, i, y.value) && i > 0 {
        assert Nth(hops, x, i) == Nth(hops, next, i - 1);
        assert SharesAt(hops, next, i - 1, y.value);
      }
      if i: nat :| i < j && SharesAt(hops, next, i, y.value) {
        assert Nth(hops, x, i + 1) == Nth(hops, next, i);
        assert SharesAt(hops, x, i + 1, y.value);
      }
      assert SharesAt(hops, x, 0, y.value) <==> Identity(x) == Identity(y.value);
    }
  }

  /** Looking back finds something exactly if some node of the chain repeats an identity. */
  lemma {:induction false} RevisitsMeans(hops: Hops, x: Node, n: nat, visited: set<string>)
    ensures Revisits(hops, x, n, visited) <==> exists j: nat :: j < n && RepeatsAt(hops, x, j, visited)
    decreases n
  {
    assert Nth(hops, x, 0) == Some(x);
    assert RepeatsAt(hops, x, 0, visited) <==> Identity(x) in visited;
    if n > 0 && hops(x).Goes? {
      var next, seen := hops(x).next, visited + {Identity(x)};
      RevisitsMeans(hops, next, n - 1, seen);
      if j: nat :| j < n - 1 && RepeatsAt(hops, next, j, seen) {
        RepeatsLater(hops, x, j, visited);
        assert RepeatsAt(hops, x, j + 1, visited);
      }
      if j: nat :| j < n && RepeatsAt(hops, x, j, visited) && j > 0 {
        RepeatsLater(hops, x, j - 1, visited);
        assert RepeatsAt(hops, next, j - 1, seen);
      }
    }
  }

  lemma {:induction false} NthAdds(hops: Hops, x: Node, i: nat, k: nat)
    requires Nth(hops, x, i).Some?
    ensures Nth(hops, Nth(hops, x, i).value, k) == Nth(hops, x, i + k)
    decreases i
  {
    if i > 0 {
      NthAdds(hops, hops(x).next, i - 1, k);
    }
  }

  /** Two different exports among the first `n` of the chain have one identity. */
  ghost predicate Confused(hops: Hops, x: Node, n: nat) {
    exists i: nat, j: nat :: i < j < n && ConfusedAt(hops, x, i, j)
  }

  ghost predicate ConfusedAt(hops: Hops, x: Node, i: nat, j: nat) {
    var y, z := Nth(hops, x, i), Nth(hops, x, j);
    y.Some? && z.Some? && y != z && Identity(y.value) == Identity(z.value)
  }

  /** The loop check spoils an answer exactly when two different exports of the chain have one identity. */
  lemma MisfiresIffConfused(hops: Hops, x: Node, n: nat)
    ensures Walk(hops, x, n, {}) != Follow(hops, x, n) <==> !Follow(hops, x, n).Error? && Confused(hops, x, n)
  {
    WalkIsFollowUnlessRevisited(hops, x, n, {});
    RevisitsMeans(hops, x, n, {});
    if j: nat :| j < n && RepeatsAt(hops, x, j, {}) {
      var i: nat :| i < j && SharesAt(hops, x, i, Nth(hops, x, j).value);
      if Nth(hops, x, i) == Nth(hops, x, j) {
        NthAdds(hops, x, i, j - i);
        CycleIsError(hops, Nth(hops, x, i).value, j - i, n - i);
        FollowSkips(hops, x, i, n);
      } else {
        assert ConfusedAt(hops, x, i, j);
      }
    }
    if i: nat, j: nat :| i < j < n && ConfusedAt(hops, x, i, j) {
      assert SharesAt(hops, x, i, Nth(hops, x, j).value);
      assert RepeatsAt(hops, x, j, {});
    }
  }

  // ---------------------------------------------------------------- loading another module

  /** Neither the new record nor one that it replaces has that name. */
  predicate Uninvolved(modules: Modules, base: nat, record: ModuleRecord, name: string) {
    record.name != name && (base in modules ==> modules[base].name != name)
  }

  lemma NewestElsewhere(modules: Modules, base: nat, record: ModuleRecord, name: string)
    requires Uninvolved(modules, base, record, name) && Generations(modules)
    ensures Newest(modules[base := record], name) == Newest(modules, name)
  {
    var modules' := modules[base := record];
    forall b: nat ensures IsNewest(modules', name, b) <==> IsNewest(modules, name, b) {
      if IsNewest(modules, name, b) {
        assert IsNewest(modules', name, b);
      }
      if IsNewest(modules', name, b) {
        forall c | c in modules && modules[c].name == name
          ensures modules[c].generation <= modules[b].generation
        {
          assert c in modules' && modules'[c] == modules[c];
        }
      }
    }
    NewestAgree(modules', modules, name);
  }

  lemma NewestAgree(modules': Modules, modules: Modules, name: string)
    requires Generations(modules)
    requires forall b: nat :: IsNewest(modules', name, b) <==> IsNewest(modules, name, b)
    ensures Newest(modules', name) == Newest(modules, name)
  {
    if b: nat :| IsNewest(modules', name, b) {
      var c: nat :| Newest(modules', name) == Some(c) && IsNewest(modules', name, c);
      NewestIsUnique(modules, name, c);
    }
  }

  /** Both give the same answers along the chain from `x`. */
  ghost predicate AgreeAlong(hops: Hops, hops': Hops, x: Node, n: nat) {
    forall k: nat :: k < n && Nth(hops, x, k).Some? ==>
      hops'(Nth(hops, x, k).value) == hops(Nth(hops, x, k).value)
  }

  lemma AgreeTail(hops: Hops, hops': Hops, x: Node, n: nat)
    requires n > 0 && AgreeAlong(hops, hops', x, n)
    ensures hops'(x) == hops(x)
    ensures hops(x).Goes? ==> AgreeAlong(hops, hops', hops(x).next, n - 1)
  {
    assert Nth(hops, x, 0) == Some(x);
    if hops(x).Goes? {
      var next := hops(x).next;
      forall k: nat | k < n - 1 && Nth(hops, next, k).Some?
        ensures hops'(Nth(hops, next, k).value) == hops(Nth(hops, next, k).value)
      {
        assert Nth(hops, x, k + 1) == Nth(hops, next, k);
      }
    }
  }

  /** Nothing else matters to following, to looking back, or to the walk. */
  lemma {:induction false} WalkAgrees(hops: Hops, hops': Hops, x: Node, n: nat, visited: set<string>)
    requires AgreeAlong(hops, hops', x, n)
    ensures Follow(hops', x, n) == Follow(hops, x, n)
    ensures Revisits(hops', x, n, visited) == Revisits(hops, x, n, visited)
    ensures Walk(hops', x, n, visited) == Walk(hops, x, n, visited)
    decreases n
  {
    if n > 0 {
      AgreeTail(hops, hops', x, n);
      if hops(x).Goes? {
        WalkAgrees(hops, hops', hops(x).next, n - 1, visited + {Identity(x)});
      }
    }
  }

  /** No module on the chain of lookups from `x` is loaded or replaced. */
  ghost predicate OffChain(modules: Modules, exports: Exports, base: nat, record: ModuleRecord, x: Node, n: nat) {
    forall k: nat :: k < n && Nth(HopsOf(modules, exports), x, k).Some? ==>
      Uninvolved(modules, base, record, Nth(HopsOf(modules, exports), x, k).value.library)
  }

  /** Loading a module whose name is not on the chain, where no module of the chain was, changes no answer. */
  lemma LoadElsewhere(
    modules: Modules, exports: Exports, base: nat, record: ModuleRecord, x: Node, n: nat, visited: set<string>)
    requires Generations(modules) && OffChain(modules, exports, base, record, x, n)
    ensures Follow(HopsOf(modules[base := record], exports), x, n) == Follow(HopsOf(modules, exports), x, n)
    ensures
      Walk(HopsOf(modules[base := record], exports), x, n, visited)
      == Walk(HopsOf(modules, exports), x, n, visited)
  {
    var hops := HopsOf(modules, exports);
    forall k: nat | k < n && Nth(hops, x, k).Some?
      ensures HopsOf(modules[base := record], exports)(Nth(hops, x, k).value) == hops(Nth(hops, x, k).value)
    {
      SameHop(modules, exports, base, record, Nth(hops, x, k).value);
    }
    WalkAgrees(hops, HopsOf(modules[base := record], exports), x, n, visited);
  }

  /** So a hook stays resolved, or pending, or an error, until a module on its own chain is loaded. */
  lemma HookLoadElsewhere(
    modules: Modules, exports: Exports, base: nat, record: ModuleRecord, d: HookDefinition)
    requires Generations(modules) && Uninvolved(modules, base, record, d.moduleName)
    requires OffChain(modules, exports, base, record, Node(Qualified(d.moduleName), d.exportName), MAX_HOPS)
    ensures HookResolution(modules[base := record], exports, d) == HookResolution(modules, exports, d)
  {
    NewestElsewhere(modules, base, record, d.moduleName);
    LoadElsewhere(modules, exports, base, record, Node(Qualified(d.moduleName), d.exportName), MAX_HOPS, {});
  }

  lemma SameHop(modules: Modules, exports: Exports, base: nat, record: ModuleRecord, x: Node)
    requires Generations(modules) && Uninvolved(modules, base, record, x.library)
    ensures HopFrom(modules[base := record], exports, x) == HopFrom(modules, exports, x)
  {
    NewestElsewhere(modules, base, record, x.library);
  }

  // ---------------------------------------------------------------- where the loop check is wrong

  lemma LastDot(s: string, k: nat)
    requires k < |s| && s[k] == '.' && forall i :: k < i < |s| ==> s[i] != '.'
    ensures LastOf(s, ".") == Some(k)
  {
    var r := LastOf(s, ".");
    assert s[k] in ".";
  }

  lemma AlreadyQualified(name: string)
    requires Normal(name) && '.' in name
    ensures Qualified(name) == name
  {
    NormalizeIsIdempotent(name);
  }

  /** A forwarder names the module in front of its last dot and the export behind it. */
  lemma ForwarderNames(library: string, name: string)
    requires library != "" && name != "" && name[0] != '#' && '.' !in name
    ensures ParseForwarder(library + "." + name) == Goes(Node(Qualified(library), name))
  {
    var text := library + "." + name;
    forall i | |library| < i < |text| ensures text[i] != '.' {
      assert text[i] == name[i - |library| - 1];
    }
    LastDot(text, |library|);
    assert text[..|library|] == library && text[|library| + 1..] == name;
  }

  /** How the names in the forwarders of the example are read. */
  lemma MisfireNames()
    returns (first: string, second: string)
    ensures first == "a.dll" && second == first + "!" + "b"
    ensures Qualified("x.dll") == "x.dll" && Qualified("a") == first && Qualified(second) == second
  {
    hide NormalizeModuleName, Qualified;
    first := "a.dll";
    second := first + "!" + "b";
    var hooked := "x.dll";
    assert hooked[1] == '.' && second[1] == '.';
    AlreadyQualified(hooked);
    AlreadyQualified(second);
    WithExtension("a");
  }

  lemma WithExtension(name: string)
    requires Normal(name) && '.' !in name
    ensures Qualified(name) == name + ".dll"
  {
    NormalizeIsIdempotent(name);
  }

  /** Two of its exports have one identity. */
  lemma MisfireIdentities(first: string, second: string)
    requires first == "a.dll" && second == first + "!" + "b"
    ensures first != "x.dll" && second != "x.dll" && first != second
    ensures first + "!" + "b!c" == second + "!" + "c"
    ensures first + "!" + "b!c" != "x.dll" + "!" + "Open"
  {
    assert "b!c" == "b" + ("!" + "c");
    assert first[0] == 'a' && |first| < |second|;
    assert (first + "!" + "b!c")[0] != ("x.dll" + "!" + "Open")[0];
  }

  function ThreeModules(first: string, second: string): Modules {
    map[1 := ModuleRecord(1, "x.dll", 1), 2 := ModuleRecord(2, first, 2), 3 := ModuleRecord(3, second, 3)]
  }

  lemma AllAreNewest(first: string, second: string)
    requires first != "x.dll" && second != "x.dll" && first != second
    ensures
      var modules := ThreeModules(first, second);
      && Generations(modules) && IsNewest(modules, "x.dll", 1)
      && IsNewest(modules, first, 2) && IsNewest(modules, second, 3)
  {
  }

  lemma HopKnown(modules: Modules, exports: Exports, x: Node, base: nat, e: RemoteExport)
    requires Generations(modules) && IsNewest(modules, x.library, base) && exports(base, x.name) == Some(e)
    ensures HopsOf(modules, exports)(x) ==
      if e.address != 0 then Found(e.address, base) else ParseForwarder(e.forwarder)
  {
    NewestIsUnique(modules, x.library, base);
  }

  lemma ThreeHops(hops: Hops, x: Node, y: Node, z: Node, n: nat)
    requires n >= 3 && hops(x) == Goes(y) && hops(y) == Goes(z) && hops(z) == Found(5, 3)
    requires Identity(x) != Identity(y) && Identity(y) == Identity(z)
    ensures Follow(hops, x, n) == Resolved(5, 3)
    ensures Walk(hops, x, n, {}) == Error
  {
    assert Follow(hops, z, n - 2) == Resolved(5, 3);
    assert Follow(hops, y, n - 1) == Resolved(5, 3);
    var seen := {} + {Identity(x)};
    assert Walk(hops, z, n - 2, seen + {Identity(y)}) == Error;
    assert Walk(hops, y, n - 1, seen) == Error;
  }

  /** The forwarders of the example and the modules and exports that they name. */
  lemma MisfireForwarders(first: string, second: string)
    requires Qualified("a") == first && Qualified(second) == second && second != ""
    ensures ParseForwarder("a" + "." + "b!c") == Goes(Node(first, "b!c"))
    ensures ParseForwarder(second + "." + "c") == Goes(Node(second, "c"))
  {
    ForwarderNames("a", "b!c");
    ForwarderNames(second, "c");
  }

  /**
   Two different exports can share an identity when a module or export name contains an exclamation mark.
   Here "x.dll" forwards the hooked export "Open" to "a.b!c", and "a.dll" forwards "b!c" to "a.dll!b.c". The
   chain has three lookups and an answer, but the loop check takes the third for the second.
   */
  lemma LoopCheckCanMisfire()
    returns (modules: Modules, exports: Exports, d: HookDefinition)
    ensures Generations(modules) && d.moduleName == "x.dll" && d.exportName == "Open"
    ensures Newest(modules, "x.dll").Some? && Qualified("x.dll") == "x.dll"
    ensures Follow(HopsOf(modules, exports), Node("x.dll", "Open"), MAX_HOPS) == Resolved(5, 3)
    ensures HookResolution(modules, exports, d) == Error
  {
    var first, second := MisfireNames();
    MisfireIdentities(first, second);
    var inner, outer := second + "." + "c", "a" + "." + "b!c";
    MisfireForwarders(first, second);
    modules := ThreeModules(first, second);
    exports := (base, name) =>
      Some(
        if base == 1 then RemoteExport(0, outer) else if base == 2 then RemoteExport(0, inner)
        else RemoteExport(5, ""));
    d := HookDefinition("x.dll", "Open", "", "", "");
    var x, y, z := Node("x.dll", "Open"), Node(first, "b!c"), Node(second, "c");
    AllAreNewest(first, second);
    NewestIsUnique(modules, "x.dll", 1);
    HopKnown(modules, exports, x, 1, RemoteExport(0, outer));
    HopKnown(modules, exports, y, 2, RemoteExport(0, inner));
    HopKnown(modules, exports, z, 3, RemoteExport(5, ""));
    ThreeHops(HopsOf(modules, exports), x, y, z, MAX_HOPS);
  }
}

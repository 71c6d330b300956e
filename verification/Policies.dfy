/** Access policy: pattern rules, and bundles pushed over RPC as a last-writer-wins register. */
module Policies {
  import opened Text
  import opened Sorting

  // ---- Patterns ----

  predicate HasPrefix(s: string, p: string) {
    p <= s
  }

  predicate HasSuffix(s: string, p: string) {
    |p| <= |s| && s[|s| - |p|..] == p
  }

  predicate MatchPattern(pattern: string, value: string) {
    if pattern == "*" || pattern == value then true
    else if HasPrefix(pattern, "*.") then HasSuffix(value, pattern[1..])
    else if HasSuffix(pattern, ".*") then HasPrefix(value, pattern[..|pattern| - 2])
    else false
  }

  /** What a pattern means: everything, itself, "*.x" every value ending in ".x", and otherwise "x.*" every
      value that starts with x, whether or not a dot follows. */
  lemma MatchMeaning(pattern: string, value: string)
    ensures MatchPattern(pattern, value) <==>
            || pattern == "*"
            || pattern == value
            || (exists x, y :: pattern == "*." + x && value == y + ("." + x))
            || ((forall x :: pattern != "*." + x) && exists x, y :: pattern == x + ".*" && value == x + y)
  {
    if HasPrefix(pattern, "*.") {
      assert pattern == "*." + pattern[2..] && pattern[1..] == "." + pattern[2..];
      if HasSuffix(value, pattern[1..]) {
        var y := value[..|value| - |pattern[1..]|];
        assert value == y + ("." + pattern[2..]);
      }
      forall x, y | pattern == "*." + x && value == y + ("." + x) ensures HasSuffix(value, pattern[1..]) {
        assert pattern[1..] == "." + x;
        assert value[|value| - |pattern[1..]|..] == "." + x;
      }
    } else {
      assert forall x :: pattern == "*." + x ==> HasPrefix(pattern, "*.");
      if HasSuffix(pattern, ".*") && HasPrefix(value, pattern[..|pattern| - 2]) {
        var x := pattern[..|pattern| - 2];
        assert pattern == x + ".*" && value == x + value[|x|..];
      }
      forall x, y | pattern == x + ".*" && value == x + y
        ensures HasSuffix(pattern, ".*") && HasPrefix(value, pattern[..|pattern| - 2])
      {
        assert pattern[|pattern| - 2..] == ".*" && pattern[..|pattern| - 2] == x;
      }
    }
  }

  predicate MatchesAny(patterns: seq<string>, value: string) {
    exists i | 0 <= i < |patterns| :: MatchPattern(patterns[i], value)
  }

  // ---- Rules in force ----

  datatype Rules = Rules(
    allow: seq<string>, deny: seq<string>, permissive: bool, version: nat, cluster: string)

  /** Deny wins; with no allow patterns everything is allowed exactly when there are no deny patterns either. */
  predicate Allowed(p: Rules, service: string) {
    p.permissive ||
    (!MatchesAny(p.deny, service) &&
     if p.allow == [] then p.deny == [] else MatchesAny(p.allow, service))
  }

  // ---- Bundles ----

  datatype Rule = Rule(subject: string, allow: seq<string>, deny: seq<string>)

  datatype Bundle = Bundle(cluster: string, version: nat, rules: seq<Rule>)

  predicate Global(r: Rule) {
    r.subject == "" || r.subject == "*"
  }

  function NonEmpty(): string -> bool {
    (s: string) => s != ""
  }

  function AllowSide(): Rule -> seq<string> {
    (r: Rule) => r.allow
  }

  function DenySide(): Rule -> seq<string> {
    (r: Rule) => r.deny
  }

  /** The non-empty patterns on one side of the global rules, in order. */
  function Collect(rules: seq<Rule>, side: Rule -> seq<string>): seq<string> {
    if rules == [] then []
    else
      var r := rules[|rules| - 1];
      Collect(rules[..|rules| - 1], side) + if Global(r) then Filter(side(r), NonEmpty()) else []
  }

  function Installed(b: Bundle): Rules {
    Rules(Collect(b.rules, AllowSide()), Collect(b.rules, DenySide()), false, b.version, b.cluster)
  }

  predicate Accepts(p: Rules, b: Bundle, minVersion: nat) {
    && b.version >= minVersion
    && (b.cluster == "" || p.cluster == "" || b.cluster == p.cluster)
    && b.version > p.version
  }

  function Apply(p: Rules, b: Bundle, minVersion: nat): Rules {
    if Accepts(p, b, minVersion) then Installed(b) else p
  }

  // ---- The meaning of a bundle ----

  ghost predicate GlobalPattern(rules: seq<Rule>, side: Rule -> seq<string>, pattern: string) {
    pattern != "" &&
    exists i | 0 <= i < |rules| :: (rules[i].subject == "" || rules[i].subject == "*") && pattern in side(rules[i])
  }

  ghost predicate GlobalAllow(b: Bundle, pattern: string) {
    GlobalPattern(b.rules, AllowSide(), pattern)
  }

  ghost predicate GlobalDeny(b: Bundle, pattern: string) {
    GlobalPattern(b.rules, DenySide(), pattern)
  }

  /** What the global rules of a bundle permit, said without lists. */
  ghost predicate Permits(b: Bundle, service: string) {
    && (forall d | GlobalDeny(b, d) :: !MatchPattern(d, service))
    && ((exists a :: GlobalAllow(b, a) && MatchPattern(a, service)) ||
        ((forall a :: !GlobalAllow(b, a)) && (forall d :: !GlobalDeny(b, d))))
  }

  lemma {:induction false} CollectHas(rules: seq<Rule>, side: Rule -> seq<string>, x: string)
    ensures x in Collect(rules, side) <==> GlobalPattern(rules, side, x)
  {
    if rules != [] {
      var n := |rules| - 1;
      var front := rules[..n];
      CollectHas(front, side, x);
      FilterIn(side(rules[n]), NonEmpty(), x);
      if GlobalPattern(front, side, x) {
        var i :| 0 <= i < n && Global(front[i]) && x in side(front[i]);
        assert Global(rules[i]) && x in side(rules[i]);
      }
      if GlobalPattern(rules, side, x) {
        var i :| 0 <= i <= n && Global(rules[i]) && x in side(rules[i]);
        if i < n { assert Global(front[i]) && x in side(front[i]); }
      }
    }
  }

  lemma MatchesAnyMember(patterns: seq<string>, value: string)
    ensures MatchesAny(patterns, value) <==> exists p :: p in patterns && MatchPattern(p, value)
  {
    if MatchesAny(patterns, value) {
      var i :| 0 <= i < |patterns| && MatchPattern(patterns[i], value);
      assert patterns[i] in patterns;
    }
  }

  /** What rules allow, said by membership: everything if permissive; else nothing that a deny pattern matches, and
      of the rest what an allow pattern matches, or everything if there are no patterns at all. */
  lemma AllowedMeaning(p: Rules, service: string)
    ensures p.permissive ==> Allowed(p, service)
    ensures !p.permissive ==>
              (Allowed(p, service) <==>
                 && (forall d | d in p.deny :: !MatchPattern(d, service))
                 && ((exists a :: a in p.allow && MatchPattern(a, service)) || (p.allow == [] && p.deny == [])))
  {
    MatchesAnyMember(p.allow, service);
    MatchesAnyMember(p.deny, service);
  }

  /** An installed bundle allows exactly what its global rules permit. */
  lemma InstalledMeaning(b: Bundle, service: string)
    ensures Allowed(Installed(b), service) <==> Permits(b, service)
  {
    var p := Installed(b);
    MatchesAnyMember(p.allow, service);
    MatchesAnyMember(p.deny, service);
    forall x ensures (x in p.allow <==> GlobalAllow(b, x)) && (x in p.deny <==> GlobalDeny(b, x)) {
      CollectHas(b.rules, AllowSide(), x);
      CollectHas(b.rules, DenySide(), x);
    }
    assert p.allow == [] <==> forall a :: a !in p.allow by {
      assert p.allow != [] ==> p.allow[0] in p.allow;
    }
    assert p.deny == [] <==> forall d :: d !in p.deny by {
      assert p.deny != [] ==> p.deny[0] in p.deny;
    }
  }

  /** What a push does: it is ignored if its version is below the minimum or not above the one in force, or if both
      sides name clusters and these differ; otherwise exactly its global patterns, its version and its cluster are in
      force, and the rules are not permissive. */
  lemma ApplyExactly(p: Rules, b: Bundle, minVersion: nat, x: string)
    ensures var r := Apply(p, b, minVersion);
            if b.version < minVersion || b.version <= p.version
               || (b.cluster != "" && p.cluster != "" && b.cluster != p.cluster) then r == p
            else
              && !r.permissive && r.version == b.version && r.cluster == b.cluster
              && (x in r.allow <==> GlobalAllow(b, x)) && (x in r.deny <==> GlobalDeny(b, x))
  {
    CollectHas(b.rules, AllowSide(), x);
    CollectHas(b.rules, DenySide(), x);
  }

  // ---- Convergence of pushes ----

  datatype Push = Push(bundle: Bundle, minVersion: nat)

  function Run(p: Rules, pushes: seq<Push>): Rules {
    if pushes == [] then p
    else var n := |pushes| - 1; Apply(Run(p, pushes[..n]), pushes[n].bundle, pushes[n].minVersion)
  }

  predicate Eligible(x: Push) {
    x.bundle.version >= x.minVersion
  }

  /** All bundles, and the rules they start from, name one cluster or none. */
  ghost predicate OneCluster(c: string, p: Rules, pushes: seq<Push>) {
    (p.cluster == "" || p.cluster == c) && forall i | 0 <= i < |pushes| ::
                                             pushes[i].bundle.cluster == "" || pushes[i].bundle.cluster == c
  }

  ghost predicate DistinctVersions(pushes: seq<Push>) {
    forall x, y | x in pushes && y in pushes && x.bundle.version == y.bundle.version :: x.bundle == y.bundle
  }

  /** The accepted version never decreases along a run. */
  lemma {:induction false} VersionsNeverDecrease(p: Rules, pushes: seq<Push>, i: nat)
    requires i <= |pushes|
    ensures Run(p, pushes[..i]).version <= Run(p, pushes).version
    decreases |pushes|
  {
    if i < |pushes| {
      var n := |pushes| - 1;
      assert pushes[..n][..i] == pushes[..i];
      VersionsNeverDecrease(p, pushes[..n], i);
    } else {
      assert pushes[..i] == pushes;
    }
  }

  /** A run ends with the rules it started from or with an eligible bundle it was pushed, and no eligible
      bundle has a higher version. */
  lemma {:induction false} EndsAtHighest(c: string, p: Rules, pushes: seq<Push>)
    requires OneCluster(c, p, pushes)
    ensures var r := Run(p, pushes);
            && p.version <= r.version
            && (r.cluster == "" || r.cluster == c)
            && (forall i | 0 <= i < |pushes| && Eligible(pushes[i]) :: pushes[i].bundle.version <= r.version)
            && (r == p || exists i | 0 <= i < |pushes| ::
                            Eligible(pushes[i]) && pushes[i].bundle.version > p.version
                            && r == Installed(pushes[i].bundle))
  {
    if pushes != [] {
      var n := |pushes| - 1;
      var front := pushes[..n];
      EndsAtHighest(c, p, front);
      var before, r := Run(p, front), Run(p, pushes);
      forall i | 0 <= i < n && Eligible(pushes[i]) ensures pushes[i].bundle.version <= r.version {
        assert Eligible(front[i]) && front[i] == pushes[i];
      }
      if r == before && r != p {
        var i :| 0 <= i < n && Eligible(front[i]) && front[i].bundle.version > p.version
            && before == Installed(front[i].bundle);
        assert pushes[i] == front[i];
      } else if r != before {
        assert Eligible(pushes[n]) && r == Installed(pushes[n].bundle);
      }
    }
  }

  ghost predicate SameMessages(xs: seq<Push>, ys: seq<Push>) {
    forall x :: x in xs <==> x in ys
  }

  /** CONVERGENCE. For bundles of one cluster with distinct versions, every delivery order with any
      duplicates ends in the same rules. */
  lemma PushesConverge(c: string, p: Rules, xs: seq<Push>, ys: seq<Push>)
    requires OneCluster(c, p, xs) && OneCluster(c, p, ys) && DistinctVersions(xs) && SameMessages(xs, ys)
    ensures Run(p, xs) == Run(p, ys)
  {
    EndsAtHighest(c, p, xs);
    EndsAtHighest(c, p, ys);
    HighestDominates(c, p, xs, ys);
    HighestDominates(c, p, ys, xs);
    var r, s := Run(p, xs), Run(p, ys);
    if r != p && s != p {
      var i :| 0 <= i < |xs| && Eligible(xs[i]) && xs[i].bundle.version > p.version && r == Installed(xs[i].bundle);
      var j :| 0 <= j < |ys| && Eligible(ys[j]) && ys[j].bundle.version > p.version && s == Installed(ys[j].bundle);
      assert ys[j] in xs && xs[i] in xs;
    }
  }

  lemma HighestDominates(c: string, p: Rules, xs: seq<Push>, ys: seq<Push>)
    requires OneCluster(c, p, xs) && OneCluster(c, p, ys) && SameMessages(xs, ys)
    ensures Run(p, xs).version <= Run(p, ys).version
    ensures Run(p, ys) == p ==> Run(p, xs) == p
  {
    EndsAtHighest(c, p, xs);
    EndsAtHighest(c, p, ys);
    if Run(p, xs) != p {
      var i :| 0 <= i < |xs| && Eligible(xs[i]) && xs[i].bundle.version > p.version
          && Run(p, xs) == Installed(xs[i].bundle);
      assert xs[i] in ys;
      var j :| 0 <= j < |ys| && ys[j] == xs[i];
      assert Eligible(ys[j]);
    }
  }

  // ---- When pushes converge, exactly ----

  /** A push that can change the rules p at all. */
  predicate Above(p: Rules, x: Push) {
    Eligible(x) && x.bundle.version > p.version
  }

  /** Two cluster names that do not exclude each other. */
  predicate Joins(c: string, d: string) {
    c == "" || d == "" || c == d
  }

  /** Every delivery order of these messages, with any duplicates, ends in the same rules. */
  ghost predicate Converges(p: Rules, xs: seq<Push>) {
    forall ys, zs | SameMessages(xs, ys) && SameMessages(xs, zs) :: Run(p, ys) == Run(p, zs)
  }

  ghost predicate Unlabelled(p: Rules, xs: seq<Push>, x: Push) {
    x in xs && Above(p, x) && x.bundle.cluster == ""
  }

  ghost predicate Foreign(p: Rules, xs: seq<Push>, c: string, x: Push) {
    x in xs && Above(p, x) && !Joins(c, x.bundle.cluster)
  }

  /** Some order installs x: its cluster fits at once, or an older bundle without a cluster can open the way. */
  ghost predicate CanLand(p: Rules, xs: seq<Push>, x: Push) {
    && x in xs && Above(p, x)
    && (Joins(p.cluster, x.bundle.cluster) || exists u :: Unlabelled(p, xs, u) && u.bundle.version < x.bundle.version)
  }

  /** Some order shuts h out: the rules already name another cluster, or can come to name one before h arrives. */
  ghost predicate CanMiss(p: Rules, xs: seq<Push>, h: Push) {
    var c := h.bundle.cluster;
    c != "" &&
    if p.cluster == "" then exists y :: Foreign(p, xs, c, y)
    else p.cluster != c
         || exists x, y :: Unlabelled(p, xs, x) && Foreign(p, xs, c, y) && x.bundle.version < y.bundle.version
  }

  /** Of the pushes that can land, one with the highest version. */
  ghost predicate Best(p: Rules, xs: seq<Push>, h: Push) {
    CanLand(p, xs, h) && forall x | CanLand(p, xs, x) :: x.bundle.version <= h.bundle.version
  }

  // Runs, piece by piece

  lemma {:induction false} RunAppend(p: Rules, a: seq<Push>, b: seq<Push>)
    ensures Run(p, a + b) == Run(Run(p, a), b)
  {
    if b == [] {
      assert a + b == a;
    } else {
      var n := |b| - 1;
      assert (a + b)[..|a + b| - 1] == a + b[..n];
      RunAppend(p, a, b[..n]);
    }
  }

  lemma RunOne(p: Rules, x: Push)
    ensures Run(p, [x]) == Apply(p, x.bundle, x.minVersion)
  {
    assert [x][..0] == [];
  }

  lemma RunTwo(p: Rules, x: Push, y: Push)
    ensures Run(p, [x, y]) == Apply(Apply(p, x.bundle, x.minVersion), y.bundle, y.minVersion)
  {
    assert [x, y][..1] == [x];
    RunOne(p, x);
  }

  lemma {:induction false} RunStill(q: Rules, zs: seq<Push>)
    requires forall x | x in zs :: !Accepts(q, x.bundle, x.minVersion)
    ensures Run(q, zs) == q
  {
    if zs != [] {
      RunStill(q, zs[..|zs| - 1]);
    }
  }

  // What can be in force along the way

  /** The rules at the start, or those of a push that can land. */
  ghost predicate Reached(p: Rules, xs: seq<Push>, q: Rules) {
    q == p || exists z :: CanLand(p, xs, z) && q == Installed(z.bundle)
  }

  /** Only pushes that can land are ever accepted. */
  lemma AcceptedCanLand(p: Rules, xs: seq<Push>, q: Rules, x: Push)
    requires Reached(p, xs, q) && x in xs && Accepts(q, x.bundle, x.minVersion)
    ensures CanLand(p, xs, x)
  {
    if q != p {
      var z :| CanLand(p, xs, z) && q == Installed(z.bundle);
      if !Joins(p.cluster, x.bundle.cluster) {
        if z.bundle.cluster == "" {
          assert Unlabelled(p, xs, z) && z.bundle.version < x.bundle.version;
        } else {
          var u :| Unlabelled(p, xs, u) && u.bundle.version < z.bundle.version;
          assert u.bundle.version < x.bundle.version;
        }
      }
    }
  }

  lemma {:induction false} RunReached(p: Rules, xs: seq<Push>, ys: seq<Push>)
    requires forall y | y in ys :: y in xs
    ensures Reached(p, xs, Run(p, ys))
  {
    if ys != [] {
      var n := |ys| - 1;
      RunReached(p, xs, ys[..n]);
      if Accepts(Run(p, ys[..n]), ys[n].bundle, ys[n].minVersion) {
        AcceptedCanLand(p, xs, Run(p, ys[..n]), ys[n]);
      }
    }
  }

  /** Nothing replaces the best push once it is installed. */
  lemma BestStays(p: Rules, xs: seq<Push>, h: Push)
    requires Best(p, xs, h)
    ensures Run(Installed(h.bundle), xs) == Installed(h.bundle)
  {
    var q := Installed(h.bundle);
    assert Reached(p, xs, q);
    forall x | x in xs ensures !Accepts(q, x.bundle, x.minVersion) {
      if Accepts(q, x.bundle, x.minVersion) {
        AcceptedCanLand(p, xs, q, x);
      }
    }
    RunStill(q, xs);
  }

  // Orders that differ

  /** An order that installs h. */
  lemma LandingOrder(p: Rules, xs: seq<Push>, h: Push) returns (ys: seq<Push>)
    requires Best(p, xs, h)
    ensures SameMessages(xs, ys) && Run(p, ys) == Installed(h.bundle)
  {
    var first := [h];
    RunOne(p, h);
    if !Joins(p.cluster, h.bundle.cluster) {
      var u :| Unlabelled(p, xs, u) && u.bundle.version < h.bundle.version;
      first := [u, h];
      RunTwo(p, u, h);
    }
    assert Run(p, first) == Installed(h.bundle);
    RunAppend(p, first, xs);
    BestStays(p, xs, h);
    ys := first + xs;
  }

  /** A start of an order after which h does not fit. */
  lemma ClosingStart(p: Rules, xs: seq<Push>, h: Push) returns (first: seq<Push>)
    requires CanMiss(p, xs, h)
    ensures (forall x | x in first :: x in xs) && !Joins(Run(p, first).cluster, h.bundle.cluster)
  {
    var c := h.bundle.cluster;
    if p.cluster == "" {
      var y :| Foreign(p, xs, c, y);
      RunOne(p, y);
      first := [y];
    } else if p.cluster != c {
      first := [];
    } else {
      var x, y :| Unlabelled(p, xs, x) && Foreign(p, xs, c, y) && x.bundle.version < y.bundle.version;
      RunTwo(p, x, y);
      first := [x, y];
    }
  }

  function AtVersion(v: nat): Push -> bool {
    (x: Push) => x.bundle.version == v
  }

  function NotAtVersion(v: nat): Push -> bool {
    (x: Push) => x.bundle.version != v
  }

  /** The rules are not those of a bundle with this version and cluster. */
  predicate Apart(q: Rules, v: nat, c: string) {
    q.version != v || q.cluster != c
  }

  /** Rules of another cluster meet the bundles of one version: they stay or get one of those, not of cluster c. */
  lemma {:induction false} ShutOut(q: Rules, these: seq<Push>, v: nat, c: string)
    requires !Joins(q.cluster, c) && forall x | x in these :: x.bundle.version == v
    ensures var r := Run(q, these); r == q || (r.version == v && r.cluster != c)
  {
    if these != [] {
      ShutOut(q, these[..|these| - 1], v, c);
    }
  }

  lemma {:induction false} StaysApart(q: Rules, zs: seq<Push>, v: nat, c: string)
    requires Apart(q, v, c) && forall x | x in zs :: x.bundle.version != v
    ensures Apart(Run(q, zs), v, c)
  {
    if zs != [] {
      StaysApart(q, zs[..|zs| - 1], v, c);
    }
  }

  /** An order that shuts h out: bundles of its version arrive when it does not fit, and never again. */
  lemma MissingOrder(p: Rules, xs: seq<Push>, h: Push) returns (zs: seq<Push>)
    requires h in xs && CanMiss(p, xs, h)
    ensures SameMessages(xs, zs) && Apart(Run(p, zs), h.bundle.version, h.bundle.cluster)
  {
    var v, c := h.bundle.version, h.bundle.cluster;
    var first := ClosingStart(p, xs, h);
    var these, rest := Filter(xs, AtVersion(v)), Filter(xs, NotAtVersion(v));
    forall x
      ensures x in these <==> x in xs && x.bundle.version == v
      ensures x in rest <==> x in xs && x.bundle.version != v
    {
      FilterIn(xs, AtVersion(v), x);
      FilterIn(xs, NotAtVersion(v), x);
    }
    RunAppend(p, first, these);
    ShutOut(Run(p, first), these, v, c);
    RunAppend(p, first + these, rest);
    StaysApart(Run(p, first + these), rest, v, c);
    zs := first + these + rest;
  }

  // Orders that agree

  /** Rules that let h in accept a push of another cluster only where h can be shut out. */
  lemma ForeignMeansMiss(p: Rules, xs: seq<Push>, h: Push, q: Rules, x: Push)
    requires Reached(p, xs, q) && Joins(q.cluster, h.bundle.cluster) && x in xs
    requires Accepts(q, x.bundle, x.minVersion) && !Joins(h.bundle.cluster, x.bundle.cluster)
    ensures CanMiss(p, xs, h)
  {
    AcceptedCanLand(p, xs, q, x);
    assert Foreign(p, xs, h.bundle.cluster, x);
    if p.cluster == h.bundle.cluster {
      var z :| CanLand(p, xs, z) && q == Installed(z.bundle);
      assert Unlabelled(p, xs, z) && z.bundle.version < x.bundle.version;
    }
  }

  /** While h has not arrived the rules let it in. */
  lemma OpenStep(p: Rules, xs: seq<Push>, h: Push, q: Rules, x: Push)
    requires !CanMiss(p, xs, h) && Reached(p, xs, q) && Joins(q.cluster, h.bundle.cluster) && x in xs
    ensures Joins(Apply(q, x.bundle, x.minVersion).cluster, h.bundle.cluster)
  {
    if Accepts(q, x.bundle, x.minVersion) && !Joins(h.bundle.cluster, x.bundle.cluster) {
      ForeignMeansMiss(p, xs, h, q, x);
    }
  }

  /** All the best pushes say the same. */
  ghost predicate BestAgree(p: Rules, xs: seq<Push>) {
    forall g, h | Best(p, xs, g) && Best(p, xs, h) :: Installed(g.bundle) == Installed(h.bundle)
  }

  /** h arrives at rules that let it in: it is installed, or its like is already. */
  lemma ArrivalInstalls(p: Rules, xs: seq<Push>, h: Push, q: Rules)
    requires Best(p, xs, h) && BestAgree(p, xs) && Reached(p, xs, q) && Joins(q.cluster, h.bundle.cluster)
    ensures Apply(q, h.bundle, h.minVersion) == Installed(h.bundle)
  {
    if !Accepts(q, h.bundle, h.minVersion) {
      var z :| CanLand(p, xs, z) && q == Installed(z.bundle);
      assert Best(p, xs, z);
    }
  }

  lemma BestStep(p: Rules, xs: seq<Push>, h: Push, q: Rules, x: Push)
    requires Best(p, xs, h) && !CanMiss(p, xs, h) && BestAgree(p, xs)
    requires Reached(p, xs, q) && Joins(q.cluster, h.bundle.cluster) && x in xs
    ensures var r := Apply(q, x.bundle, x.minVersion);
            && Joins(r.cluster, h.bundle.cluster)
            && (x == h || q == Installed(h.bundle) ==> r == Installed(h.bundle))
  {
    OpenStep(p, xs, h, q, x);
    if x == h {
      ArrivalInstalls(p, xs, h, q);
    } else if q == Installed(h.bundle) && Accepts(q, x.bundle, x.minVersion) {
      AcceptedCanLand(p, xs, q, x);
    }
  }

  lemma {:induction false} EndsAtBest(p: Rules, xs: seq<Push>, h: Push, ys: seq<Push>)
    requires Best(p, xs, h) && !CanMiss(p, xs, h) && BestAgree(p, xs) && forall y | y in ys :: y in xs
    ensures Joins(Run(p, ys).cluster, h.bundle.cluster) && (h in ys ==> Run(p, ys) == Installed(h.bundle))
  {
    if ys != [] {
      var n := |ys| - 1;
      EndsAtBest(p, xs, h, ys[..n]);
      RunReached(p, xs, ys[..n]);
      BestStep(p, xs, h, Run(p, ys[..n]), ys[n]);
      assert h in ys <==> h in ys[..n] || h == ys[n];
    }
  }

  /** Among pushes with a property there is one of the highest version. */
  lemma {:induction false} TopOf(ok: Push -> bool, ys: seq<Push>, y0: Push) returns (h: Push)
    requires ok(y0)
    ensures ok(h) && forall y | y in ys && ok(y) :: y.bundle.version <= h.bundle.version
  {
    h := y0;
    if ys != [] {
      var n := |ys| - 1;
      h := TopOf(ok, ys[..n], y0);
      assert ys == ys[..n] + [ys[n]];
      if ok(ys[n]) && ys[n].bundle.version > h.bundle.version {
        h := ys[n];
      }
    }
  }

  lemma BestExists(p: Rules, xs: seq<Push>)
    ensures (exists h :: Best(p, xs, h)) || forall x :: !CanLand(p, xs, x)
  {
    if x :| CanLand(p, xs, x) {
      var h := TopOf(y => CanLand(p, xs, y), xs, x);
      forall y | CanLand(p, xs, y) ensures y.bundle.version <= h.bundle.version {
        assert y in xs;
      }
      assert Best(p, xs, h);
    }
  }

  lemma NothingLands(p: Rules, xs: seq<Push>, ys: seq<Push>)
    requires (forall x :: !CanLand(p, xs, x)) && forall y | y in ys :: y in xs
    ensures Run(p, ys) == p
  {
    RunReached(p, xs, ys);
  }

  /** CONVERGENCE, EXACTLY. For any messages and any rules to start from, all delivery orders end alike if and only
      if the best pushes that can land say the same and none of them can be shut out. */
  lemma ConvergesExactly(p: Rules, xs: seq<Push>)
    ensures Converges(p, xs) <==> BestAgree(p, xs) && forall h | Best(p, xs, h) :: !CanMiss(p, xs, h)
  {
    if h :| Best(p, xs, h) && CanMiss(p, xs, h) {
      var ys := LandingOrder(p, xs, h);
      var zs := MissingOrder(p, xs, h);
      assert Run(p, ys) != Run(p, zs);
    } else if g, h :| Best(p, xs, g) && Best(p, xs, h) && Installed(g.bundle) != Installed(h.bundle) {
      var ys := LandingOrder(p, xs, g);
      var zs := LandingOrder(p, xs, h);
      assert Run(p, ys) != Run(p, zs);
    } else {
      BestExists(p, xs);
      forall ys, zs | SameMessages(xs, ys) && SameMessages(xs, zs) ensures Run(p, ys) == Run(p, zs) {
        if h :| Best(p, xs, h) {
          EndsAtBest(p, xs, h, ys);
          EndsAtBest(p, xs, h, zs);
        } else {
          NothingLands(p, xs, ys);
          NothingLands(p, xs, zs);
        }
      }
    }
  }

  ghost predicate Highest(p: Rules, xs: seq<Push>, h: Push) {
    h in xs && Above(p, h) && forall x | x in xs && Above(p, x) :: x.bundle.version <= h.bundle.version
  }

  /** From rules that name no cluster, as a node starts with, and with distinct versions: the highest acceptable bundle
      names no cluster, or every acceptable one names its cluster or none. */
  lemma FreshConvergesExactly(p: Rules, xs: seq<Push>)
    requires DistinctVersions(xs) && p.cluster == ""
    ensures Converges(p, xs) <==> forall h | Highest(p, xs, h) ::
              h.bundle.cluster == "" || forall x | x in xs && Above(p, x) :: Joins(h.bundle.cluster, x.bundle.cluster)
  {
    ConvergesExactly(p, xs);
    forall h ensures Best(p, xs, h) <==> Highest(p, xs, h) {
      assert forall x :: CanLand(p, xs, x) <==> x in xs && Above(p, x);
    }
    forall h | Highest(p, xs, h)
      ensures CanMiss(p, xs, h) <==>
              !(h.bundle.cluster == "" || forall x | x in xs
                  && Above(p, x) :: Joins(h.bundle.cluster, x.bundle.cluster))
    {
      if x :| x in xs && Above(p, x) && !Joins(h.bundle.cluster, x.bundle.cluster) {
        assert Foreign(p, xs, h.bundle.cluster, x);
      }
    }
  }

  /** Any two bundles of different clusters diverge: the first one accepted shuts the other out. */
  lemma TwoClustersDiverge(p: Rules, a: Push, b: Push)
    requires p.cluster == "" && Above(p, a) && Above(p, b) && !Joins(a.bundle.cluster, b.bundle.cluster)
    ensures Run(p, [a, b]) == Installed(a.bundle) && Run(p, [b, a]) == Installed(b.bundle)
  {
    RunTwo(p, a, b);
    RunTwo(p, b, a);
  }

  /** Of two bundles with one version the first one stays. */
  lemma SameVersionDiverges(p: Rules, a: Push, b: Push)
    requires Above(p, a) && Above(p, b) && a.bundle.version == b.bundle.version
    requires Joins(p.cluster, a.bundle.cluster) && Joins(p.cluster, b.bundle.cluster)
    ensures Run(p, [a, b]) == Installed(a.bundle) && Run(p, [b, a]) == Installed(b.bundle)
  {
    RunTwo(p, a, b);
    RunTwo(p, b, a);
  }

  // ---- The policy object ----

  class Policy {
    var allowServices: seq<string>
    var denyServices: seq<string>
    var permissive: bool
    var version: nat
    var cluster: string

    ghost function Model(): Rules
      reads this
    {
      Rules(allowServices, denyServices, permissive, version, cluster)
    }

    constructor (permissive: bool)
      ensures Model() == Rules([], [], permissive, 0, "")
    {
      allowServices, denyServices, this.permissive, version, cluster := [], [], permissive, 0, "";
    }

    method AllowService(pattern: string)
      modifies this
      ensures Model() == old(Model()).(allow := old(allowServices) + [pattern])
    {
      allowServices := allowServices + [pattern];
    }

    method DenyService(pattern: string)
      modifies this
      ensures Model() == old(Model()).(deny := old(denyServices) + [pattern])
    {
      denyServices := denyServices + [pattern];
    }

    method Allow(service: string) returns (ok: bool)
      ensures ok <==> Allowed(Model(), service)
    {
      if permissive {
        return true;
      }
      for i := 0 to |denyServices|
        invariant forall j | 0 <= j < i :: !MatchPattern(denyServices[j], service)
      {
        if MatchPattern(denyServices[i], service) {
          return false;
        }
      }
      if |allowServices| == 0 {
        return |denyServices| == 0;
      }
      for i := 0 to |allowServices|
        invariant forall j | 0 <= j < i :: !MatchPattern(allowServices[j], service)
      {
        if MatchPattern(allowServices[i], service) {
          return true;
        }
      }
      return false;
    }

    /** A missing bundle is answered with version 0; a rejected one with the version in force. */
    method ApplyBundle(b: Option<Bundle>, minVersion: nat) returns (accepted: nat)
      modifies this
      ensures Model() == if b.Some? then Apply(old(Model()), b.value, minVersion) else old(Model())
      ensures accepted == if b.Some? then version else 0
    {
      if b.None? {
        return 0;
      }
      var bundle := b.value;
      if bundle.version < minVersion {
        return version;
      }
      if bundle.cluster != "" && cluster != "" && bundle.cluster != cluster {
        return version;
      }
      if bundle.version <= version {
        return version;
      }
      var allow: seq<string>, deny: seq<string> := [], [];
      for i := 0 to |bundle.rules|
        invariant allow == Collect(bundle.rules[..i], AllowSide()) && deny == Collect(bundle.rules[..i], DenySide())
      {
        assert bundle.rules[..i + 1][..i] == bundle.rules[..i];
        var rule := bundle.rules[i];
        if rule.subject != "" && rule.subject != "*" {
          continue;
        }
        allow := AppendNonEmpty(allow, rule.allow);
        deny := AppendNonEmpty(deny, rule.deny);
      }
      assert bundle.rules[..|bundle.rules|] == bundle.rules;
      allowServices, denyServices, permissive, version, cluster := allow, deny, false, bundle.version, bundle.cluster;
      return version;
    }
  }

  method AppendNonEmpty(list: seq<string>, more: seq<string>) returns (out: seq<string>)
    ensures out == list + Filter(more, NonEmpty())
  {
    out := list;
    for i := 0 to |more|
      invariant out == list + Filter(more[..i], NonEmpty())
    {
      assert more[..i + 1][..i] == more[..i];
      if more[i] != "" {
        out := out + [more[i]];
      }
    }
    assert more[..|more|] == more;
  }
}

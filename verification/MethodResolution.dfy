/**
 Which method resolution finds: the first declaration on the superclass chain, and failing
 that one in an interface that the classes of the chain lead to.
 */
module MethodResolution {
  import opened Wrappers
  import opened Program
  import opened Classes

  predicate Declares(table: Table, c: string, key: MethodKey) {
    c in table && key in table[c].methods
  }

  // ----- Interfaces by paths -----

  /** The k-th interface of a path is loaded and extends the next one. */
  predicate Extends(table: Table, p: seq<string>, k: nat)
    requires k + 1 < |p|
  {
    p[k] in table && p[k + 1] in table[p[k]].interfaces
  }

  ghost predicate IsPath(table: Table, from: seq<string>, p: seq<string>) {
    p != [] && p[0] in from && forall k :: 0 <= k < |p| - 1 ==> Extends(table, p, k)
  }

  /** An interface to which one of the given ones leads. */
  ghost predicate Leads(table: Table, from: seq<string>, i: string) {
    exists p :: IsPath(table, from, p) && p[|p| - 1] == i
  }

  lemma {:induction false} ListedLeads(table: Table, from: seq<string>, i: string)
    requires i in from
    ensures Leads(table, from, i)
  {
    assert IsPath(table, from, [i]);
  }

  lemma {:induction false} LeadsOn(table: Table, from: seq<string>, i: string, j: string)
    requires Leads(table, from, i) && i in table && j in table[i].interfaces
    ensures Leads(table, from, j)
  {
    var p :| IsPath(table, from, p) && p[|p| - 1] == i;
    var q := p + [j];
    forall k | 0 <= k < |q| - 1 ensures Extends(table, q, k) {
      if k < |p| - 1 {
        assert Extends(table, p, k);
      }
    }
    assert IsPath(table, from, q) && q[|q| - 1] == j;
  }

  /** What the search finds is an interface that the first ones lead to. */
  lemma {:induction false} FoundLeads(table: Table, from: seq<string>, listed: seq<string>, i: nat, key: MethodKey)
    requires i <= |listed| && forall n :: n in listed ==> Leads(table, from, n)
    ensures var r := ResolveInInterfaces(table, listed, i, key);
            !r.NotLoaded? && (r.Found? ==> Leads(table, from, r.className))
    decreases |Unlisted(table, listed)|, |listed| - i
  {
    if i < |listed| {
      if listed[i] !in table {
        FoundLeads(table, from, listed, i + 1, key);
      } else if key !in table[listed[i]].methods {
        var more := AddNew(listed, table[listed[i]].interfaces);
        forall n | n in more ensures Leads(table, from, n) {
          if n !in listed {
            LeadsOn(table, from, listed[i], n);
          }
        }
        ListingShrinks(table, listed[i], listed);
        FoundLeads(table, from, more, i + 1, key);
      }
    }
  }

  /** The interfaces searched so far do not declare the key, and those they extend are listed. */
  ghost predicate Searched(table: Table, listed: seq<string>, i: nat, key: MethodKey)
    requires i <= |listed|
  {
    forall j :: 0 <= j < i && listed[j] in table ==>
      !Declares(table, listed[j], key) && forall n :: n in table[listed[j]].interfaces ==> n in listed
  }

  /** A search that finds nothing has left no interface out. */
  lemma {:induction false} NotFoundLeaves(
      table: Table, listed: seq<string>, i: nat, key: MethodKey, p: seq<string>, k: nat)
    requires i <= |listed| && Searched(table, listed, i, key)
    requires ResolveInInterfaces(table, listed, i, key).NotFound?
    requires IsPath(table, listed, p) && k < |p|
    ensures !Declares(table, p[k], key)
    decreases |Unlisted(table, listed)|, |listed| - i
  {
    if i == |listed| {
      PathListed(table, listed, key, p, k);
    } else if listed[i] !in table {
      NotFoundLeaves(table, listed, i + 1, key, p, k);
    } else {
      var more := AddNew(listed, table[listed[i]].interfaces);
      assert Searched(table, more, i + 1, key);
      ListingShrinks(table, listed[i], listed);
      NotFoundLeaves(table, more, i + 1, key, p, k);
    }
  }

  lemma {:induction false} PathListed(table: Table, listed: seq<string>, key: MethodKey, p: seq<string>, k: nat)
    requires Searched(table, listed, |listed|, key) && IsPath(table, listed, p) && k < |p|
    ensures p[k] in listed && !Declares(table, p[k], key)
  {
    if k > 0 {
      PathListed(table, listed, key, p, k - 1);
      assert Extends(table, p, k - 1);
    }
  }

  /** The search over interfaces finds a declaration if and only if one of them leads to one. */
  lemma {:induction false} InterfacesIff(table: Table, from: seq<string>, key: MethodKey)
    ensures var r := ResolveInInterfaces(table, from, 0, key);
            && !r.NotLoaded?
            && (r.Found? ==> Leads(table, from, r.className) && Declares(table, r.className, key))
            && (r.Found? <==> exists i :: Leads(table, from, i) && Declares(table, i, key))
  {
    forall n | n in from ensures Leads(table, from, n) {
      ListedLeads(table, from, n);
    }
    FoundLeads(table, from, from, 0, key);
    if ResolveInInterfaces(table, from, 0, key).NotFound? {
      forall i | Leads(table, from, i) ensures !Declares(table, i, key) {
        var p :| IsPath(table, from, p) && p[|p| - 1] == i;
        NotFoundLeaves(table, from, 0, key, p, |p| - 1);
      }
    }
  }

  // ----- The nearest declaration -----

  ghost predicate PathTo(table: Table, from: seq<string>, p: seq<string>, n: string) {
    IsPath(table, from, p) && p[|p| - 1] == n
  }

  ghost predicate ReachedBy(table: Table, from: seq<string>, n: string, length: nat) {
    exists p :: PathTo(table, from, p, n) && |p| == length
  }

  predicate Rising(depth: seq<nat>) {
    forall j, k :: 0 <= j < k < |depth| ==> depth[j] <= depth[k]
  }

  /** Each listed interface comes with the length of a shortest path to it. */
  ghost predicate Shortest(table: Table, from: seq<string>, listed: seq<string>, depth: seq<nat>)
    requires |listed| == |depth|
  {
    && (forall j :: 0 <= j < |listed| ==> ReachedBy(table, from, listed[j], depth[j]))
    && forall p, j :: 0 <= j < |listed| && PathTo(table, from, p, listed[j]) ==> depth[j] <= |p|
  }

  /** All that paths up to a length reach is listed. */
  ghost predicate Covered(table: Table, from: seq<string>, listed: seq<string>, length: nat) {
    forall p, n :: PathTo(table, from, p, n) && |p| <= length ==> n in listed
  }

  /** The search is breadth first: the lengths grow along the list, and no level is begun before the last is listed. */
  ghost predicate Levelled(table: Table, from: seq<string>, listed: seq<string>, depth: seq<nat>, i: nat) {
    && i <= |listed| == |depth| && Rising(depth) && Shortest(table, from, listed, depth)
    && (i < |listed| ==> depth[|depth| - 1] <= depth[i] + 1 && Covered(table, from, listed, depth[i]))
  }

  lemma {:induction false} AddNewIsNew(listed: seq<string>, names: seq<string>, k: nat)
    requires |listed| <= k < |AddNew(listed, names)|
    ensures AddNew(listed, names)[k] !in listed && AddNew(listed, names)[k] in names
    decreases |names|
  {
    var more := if names[0] in listed then listed else listed + [names[0]];
    if k >= |more| {
      AddNewIsNew(more, names[1..], k);
    }
  }

  /** What the next interface extends. */
  function NextNames(table: Table, n: string): seq<string> {
    if n in table then table[n].interfaces else []
  }

  lemma {:induction false} PathOn(table: Table, from: seq<string>, p: seq<string>, n: string, m: string)
    requires PathTo(table, from, p, n) && m in NextNames(table, n)
    ensures PathTo(table, from, p + [m], m)
  {
    var q := p + [m];
    forall k | 0 <= k < |q| - 1 ensures Extends(table, q, k) {
      if k < |p| - 1 {
        assert Extends(table, p, k);
      }
    }
  }

  lemma {:induction false} PathBack(table: Table, from: seq<string>, p: seq<string>, m: string)
    requires PathTo(table, from, p, m) && |p| > 1
    ensures PathTo(table, from, p[..|p| - 1], p[|p| - 2]) && m in NextNames(table, p[|p| - 2])
  {
    var r := p[..|p| - 1];
    forall k | 0 <= k < |r| - 1 ensures Extends(table, r, k) {
      assert Extends(table, p, k);
    }
    assert Extends(table, p, |r| - 1);
  }

  lemma {:induction false} ReachedOn(table: Table, from: seq<string>, n: string, length: nat, m: string)
    requires ReachedBy(table, from, n, length) && m in NextNames(table, n)
    ensures ReachedBy(table, from, m, length + 1)
  {
    hide PathTo;
    var p :| PathTo(table, from, p, n) && |p| == length;
    PathOn(table, from, p, n, m);
    assert |p + [m]| == length + 1;
  }

  /** A path one longer than the paths already covered ends in what the interfaces searched so far extend. */
  lemma {:induction false} LongerPathListed(
      table: Table, from: seq<string>, listed: seq<string>, depth: seq<nat>, i: nat, key: MethodKey, p: seq<string>, n: string)
    requires i < |listed| && Levelled(table, from, listed, depth, i) && Searched(table, listed, i, key)
    requires PathTo(table, from, p, n) && |p| == depth[i] + 1 && (i + 1 < |listed| ==> depth[i] < depth[i + 1])
    ensures n in listed || n in NextNames(table, listed[i])
  {
    assert depth[i] >= 1 by {
      assert ReachedBy(table, from, listed[i], depth[i]);
    }
    PathBack(table, from, p, n);
    var m := p[|p| - 2];
    hide PathTo, Declares;
    assert PathTo(table, from, p[..|p| - 1], m) && |p[..|p| - 1]| == depth[i];
    assert m in listed;
    var j :| 0 <= j < |listed| && listed[j] == m;
    assert depth[j] <= depth[i];
    assert j <= i;
  }

  lemma {:induction false} ShortestNext(
      table: Table, from: seq<string>, listed: seq<string>, depth: seq<nat>, i: nat, more: seq<string>, deeper: seq<nat>)
    requires i < |listed| && Levelled(table, from, listed, depth, i)
    requires more == AddNew(listed, NextNames(table, listed[i]))
    requires deeper == depth + seq(|more| - |listed|, _ => depth[i] + 1)
    ensures Shortest(table, from, more, deeper)
  {
    hide PathTo, NextNames, AddNew;
    var names := NextNames(table, listed[i]);
    forall j | 0 <= j < |more| ensures ReachedBy(table, from, more[j], deeper[j]) {
      if j >= |listed| {
        AddNewIsNew(listed, names, j);
        ReachedOn(table, from, listed[i], depth[i], more[j]);
      } else {
        assert ReachedBy(table, from, listed[j], depth[j]);
      }
    }
    forall p, j | 0 <= j < |more| && PathTo(table, from, p, more[j]) ensures deeper[j] <= |p| {
      if j >= |listed| {
        AddNewIsNew(listed, names, j);
      } else {
        assert PathTo(table, from, p, listed[j]);
      }
    }
  }

  lemma {:induction false} RisingOn(depth: seq<nat>, n: nat, d: nat)
    requires Rising(depth) && (depth != [] ==> depth[|depth| - 1] <= d)
    ensures Rising(depth + seq(n, _ => d))
  {
  }

  lemma {:induction false} LevelledNext(
      table: Table, from: seq<string>, listed: seq<string>, depth: seq<nat>, i: nat, key: MethodKey)
    returns (more: seq<string>, deeper: seq<nat>)
    requires i < |listed| && Levelled(table, from, listed, depth, i) && Searched(table, listed, i, key)
    ensures more == AddNew(listed, NextNames(table, listed[i])) && Levelled(table, from, more, deeper, i + 1)
  {
    hide ReachedBy, NextNames, Shortest, Covered, Searched, Rising;
    more := AddNew(listed, NextNames(table, listed[i]));
    var added := |more| - |listed|;
    var level := depth[i] + 1;
    deeper := depth + seq(added, _ => level);
    RisingOn(depth, added, level);
    ShortestNext(table, from, listed, depth, i, more, deeper);
    if i + 1 < |more| {
      CoveredNext(table, from, listed, depth, i, key, deeper[i + 1]);
      LastLevel(depth, added, i);
    }
  }

  lemma {:induction false} LastLevel(depth: seq<nat>, n: nat, i: nat)
    requires Rising(depth) && i < |depth| && depth[|depth| - 1] <= depth[i] + 1 && i + 1 < |depth| + n
    ensures var deeper := depth + seq(n, _ => depth[i] + 1); deeper[|deeper| - 1] <= deeper[i + 1] + 1
  {
  }

  lemma {:induction false} CoveredNext(
      table: Table, from: seq<string>, listed: seq<string>, depth: seq<nat>, i: nat, key: MethodKey, length: nat)
    requires i < |listed| && Levelled(table, from, listed, depth, i) && Searched(table, listed, i, key)
    requires length == if i + 1 < |listed| then depth[i + 1] else depth[i] + 1
    ensures Covered(table, from, AddNew(listed, NextNames(table, listed[i])), length)
  {
    var more := AddNew(listed, NextNames(table, listed[i]));
    assert Rising(depth) && depth[|depth| - 1] <= depth[i] + 1 && Covered(table, from, listed, depth[i]);
    assert length <= depth[i] + 1;
    hide PathTo, NextNames, AddNew, Searched, Levelled, Rising;
    forall p, n | PathTo(table, from, p, n) && |p| <= length ensures n in more {
      if |p| > depth[i] {
        LongerPathListed(table, from, listed, depth, i, key, p, n);
      } else {
        assert n in listed;
      }
    }
  }

  lemma {:induction false} SearchedNext(table: Table, listed: seq<string>, i: nat, key: MethodKey)
    requires i < |listed| && Searched(table, listed, i, key) && !Declares(table, listed[i], key)
    ensures Searched(table, AddNew(listed, NextNames(table, listed[i])), i + 1, key)
  {
  }

  /** The declaration found is one that no shorter path reaches. */
  lemma {:induction false} NearestFrom(
      table: Table, from: seq<string>, listed: seq<string>, depth: seq<nat>, i: nat, key: MethodKey)
    returns (q: seq<string>)
    requires Levelled(table, from, listed, depth, i) && Searched(table, listed, i, key)
    requires ResolveInInterfaces(table, listed, i, key).Found?
    ensures PathTo(table, from, q, ResolveInInterfaces(table, listed, i, key).className)
    ensures forall p, n :: PathTo(table, from, p, n) && |p| < |q| ==> !Declares(table, n, key)
    decreases |Unlisted(table, listed)|, |listed| - i
  {
    assert i < |listed|;
    hide PathTo, Levelled, Searched;
    if Declares(table, listed[i], key) {
      q := NearestHere(table, from, listed, depth, i, key);
    } else {
      var more, deeper := LevelledNext(table, from, listed, depth, i, key);
      SearchedNext(table, listed, i, key);
      if listed[i] in table {
        ListingShrinks(table, listed[i], listed);
      } else {
        assert more == listed;
      }
      q := NearestFrom(table, from, more, deeper, i + 1, key);
    }
  }

  lemma {:induction false} NearestHere(
      table: Table, from: seq<string>, listed: seq<string>, depth: seq<nat>, i: nat, key: MethodKey)
    returns (q: seq<string>)
    requires i < |listed| && Levelled(table, from, listed, depth, i) && Searched(table, listed, i, key)
    ensures PathTo(table, from, q, listed[i])
    ensures forall p, n :: PathTo(table, from, p, n) && |p| < |q| ==> !Declares(table, n, key)
  {
    hide PathTo, Searched;
    assert ReachedBy(table, from, listed[i], depth[i]);
    q :| PathTo(table, from, q, listed[i]) && |q| == depth[i];
    NoneSooner(table, from, listed, depth, i, key);
  }

  lemma {:induction false} NoneSooner(
      table: Table, from: seq<string>, listed: seq<string>, depth: seq<nat>, i: nat, key: MethodKey)
    requires i < |listed| && Levelled(table, from, listed, depth, i) && Searched(table, listed, i, key)
    ensures forall p, n :: PathTo(table, from, p, n) && |p| < depth[i] ==> !Declares(table, n, key)
  {
    hide PathTo;
    forall p, n | PathTo(table, from, p, n) && |p| < depth[i] ensures !Declares(table, n, key) {
      assert n in listed;
      var j :| 0 <= j < |listed| && listed[j] == n;
      assert depth[j] <= |p|;
      assert j < i;
    }
  }

  lemma {:induction false} ListedAtOnce(table: Table, from: seq<string>, n: string)
    requires n in from
    ensures ReachedBy(table, from, n, 1)
  {
    assert PathTo(table, from, [n], n);
  }

  lemma {:induction false} PathNotEmpty(table: Table, from: seq<string>, p: seq<string>, n: string)
    requires PathTo(table, from, p, n)
    ensures |p| >= 1 && (|p| == 1 ==> n in from)
  {
  }

  lemma {:induction false} FirstLevel(table: Table, from: seq<string>)
    ensures Levelled(table, from, from, seq(|from|, _ => 1), 0)
  {
    hide PathTo, ReachedBy;
    var depth: seq<nat> := seq(|from|, _ => 1);
    forall p, n | PathTo(table, from, p, n) ensures |p| >= 1 && (|p| == 1 ==> n in from) {
      PathNotEmpty(table, from, p, n);
    }
    assert Covered(table, from, from, 1);
    hide Covered;
    forall j | 0 <= j < |from| ensures ReachedBy(table, from, from[j], depth[j]) {
      ListedAtOnce(table, from, from[j]);
    }
    assert Shortest(table, from, from, depth);
  }

  lemma {:induction false} NearestFound(table: Table, from: seq<string>, key: MethodKey) returns (q: seq<string>)
    requires ResolveInInterfaces(table, from, 0, key).Found?
    ensures PathTo(table, from, q, ResolveInInterfaces(table, from, 0, key).className)
    ensures forall p, n :: PathTo(table, from, p, n) && |p| < |q| ==> !Declares(table, n, key)
  {
    hide ResolveInInterfaces, PathTo, Declares, Levelled;
    FirstLevel(table, from);
    q := NearestFrom(table, from, from, seq(|from|, _ => 1), 0, key);
  }

  // ----- The superclass chain -----

  /** The k-th class of a walk is loaded and has the next one as its superclass. */
  predicate HasSuper(table: Table, p: seq<string>, k: nat)
    requires k + 1 < |p|
  {
    p[k] in table && table[p[k]].superClass == Some(p[k + 1])
  }

  /** A walk up from a class on which nothing before the last class declares the key. */
  ghost predicate WalksTo(table: Table, c: string, key: MethodKey, p: seq<string>) {
    && p != [] && p[0] == c
    && forall k :: 0 <= k < |p| - 1 ==> HasSuper(table, p, k) && !Declares(table, p[k], key)
  }

  /** A class of the list is loaded and names the interface. */
  predicate Names(table: Table, classes: seq<string>, n: string) {
    exists c :: c in classes && c in table && n in table[c].interfaces
  }

  /** The interfaces met on a walk, in order. */
  function NamedBy(table: Table, p: seq<string>): seq<string>
    requires forall c :: c in p ==> c in table
  {
    if p == [] then [] else AddNew(NamedBy(table, p[..|p| - 1]), table[p[|p| - 1]].interfaces)
  }

  lemma {:induction false} NamedByClasses(table: Table, p: seq<string>, n: string)
    requires forall c :: c in p ==> c in table
    ensures n in NamedBy(table, p) <==> Names(table, p, n)
    decreases |p|
  {
    if p != [] {
      var rest, last := p[..|p| - 1], p[|p| - 1];
      NamedByClasses(table, rest, n);
      assert forall c :: c in p <==> c in rest || c == last;
    }
  }

  /** Resolution from a class on a walk is resolution from where the walk has led, with the interfaces met. */
  lemma {:induction false} AlongWalk(table: Table, rank: string -> nat, c: string, key: MethodKey, p: seq<string>)
    requires Ranked(table, rank) && WalksTo(table, c, key, p)
    ensures forall k :: 0 <= k < |p| - 1 ==> p[k] in table
    ensures Resolve(table, rank, c, key) ==
            ResolveFrom(table, rank, p[|p| - 1], NamedBy(table, p[..|p| - 1]), key)
    decreases |p|
  {
    forall k | 0 <= k < |p| - 1 ensures p[k] in table {
      assert HasSuper(table, p, k);
    }
    if |p| > 1 {
      var q := p[..|p| - 1];
      forall k | 0 <= k < |q| - 1 ensures HasSuper(table, q, k) && !Declares(table, q[k], key) {
        assert HasSuper(table, p, k);
      }
      AlongWalk(table, rank, c, key, q);
      assert HasSuper(table, p, |q| - 1);
      assert p[..|p| - 1] == q;
    }
  }

  /** Every class has such a walk to a declaration, to a class that is not loaded or to the root. */
  lemma {:induction false} WalkEnds(table: Table, rank: string -> nat, c: string, key: MethodKey) returns (p: seq<string>)
    requires Ranked(table, rank)
    ensures WalksTo(table, c, key, p)
    ensures var last := p[|p| - 1];
            last !in table || Declares(table, last, key) || table[last].superClass.None?
    decreases rank(c)
  {
    p := [c];
    if c in table && !Declares(table, c, key) && table[c].superClass.Some? {
      var rest := WalkEnds(table, rank, table[c].superClass.value, key);
      p := [c] + rest;
      forall k | 0 <= k < |p| - 1 ensures HasSuper(table, p, k) && !Declares(table, p[k], key) {
        if k > 0 {
          assert HasSuper(table, rest, k - 1);
        }
      }
    }
  }

  /** The interfaces of a path: a class of the list names the first, and each extends the next. */
  ghost predicate ExtendsAlong(table: Table, classes: seq<string>, q: seq<string>) {
    q != [] && Names(table, classes, q[0]) && forall k :: 0 <= k < |q| - 1 ==> Extends(table, q, k)
  }

  /** Such a path to an interface that declares the key. */
  ghost predicate Offers(table: Table, classes: seq<string>, q: seq<string>, key: MethodKey) {
    ExtendsAlong(table, classes, q) && Declares(table, q[|q| - 1], key)
  }

  lemma {:induction false} PathsOfClasses(table: Table, p: seq<string>, q: seq<string>)
    requires forall c :: c in p ==> c in table
    ensures ExtendsAlong(table, p, q) <==> IsPath(table, NamedBy(table, p), q)
  {
    if q != [] {
      NamedByClasses(table, p, q[0]);
    }
  }

  /** A walk that has reached the root without meeting a declaration. */
  ghost predicate Unanswered(table: Table, c: string, key: MethodKey, p: seq<string>) {
    && WalksTo(table, c, key, p)
    && var last := p[|p| - 1]; last in table && !Declares(table, last, key) && table[last].superClass.None?
  }

  /**
   What resolution finds, for every walk up the superclasses: a declaration on the chain is
   found and hides everything above it and every interface, and a class that is not loaded
   before one stops the search.
   */
  lemma {:induction false} ResolvedOnChain(table: Table, rank: string -> nat, c: string, key: MethodKey, p: seq<string>)
    requires Ranked(table, rank) && WalksTo(table, c, key, p)
    ensures var last := p[|p| - 1];
            && (Declares(table, last, key) ==> Resolve(table, rank, c, key) == Found(last, table[last].methods[key]))
            && (last !in table ==> Resolve(table, rank, c, key) == NotLoaded(last))
  {
    AlongWalk(table, rank, c, key, p);
  }

  /**
   Where the chain does not declare the key, the search goes on through the interfaces its
   classes lead to: it fails if and only if no loaded one declares the key, and otherwise
   finds one that declares it and that no other path of interfaces reaches a declaration
   sooner than.
   */
  lemma {:induction false} ResolvedInInterfaces(
      table: Table, rank: string -> nat, c: string, key: MethodKey, p: seq<string>)
    requires Ranked(table, rank) && Unanswered(table, c, key, p)
    ensures var r := Resolve(table, rank, c, key);
            && !r.NotLoaded?
            && (r.NotFound? <==> forall q :: !Offers(table, p, q, key))
            && (r.Found? ==>
                  && Declares(table, r.className, key) && r.m == table[r.className].methods[key]
                  && exists q :: Offers(table, p, q, key) && q[|q| - 1] == r.className &&
                       forall other :: Offers(table, p, other, key) ==> |q| <= |other|)
  {
    AlongWalk(table, rank, c, key, p);
    assert forall d :: d in p ==> d in table;
    var from := NamedBy(table, p);
    var r := Resolve(table, rank, c, key);
    assert r == ResolveInInterfaces(table, from, 0, key);
    hide Declares, Extends, Names, Resolve, ResolveFrom, ResolveInInterfaces, WalksTo, NamedBy;
    InterfacesIff(table, from, key);
    forall q ensures Offers(table, p, q, key) <==> IsPath(table, from, q) && Declares(table, q[|q| - 1], key) {
      PathsOfClasses(table, p, q);
    }
    if r.Found? {
      var q := NearestFound(table, from, key);
      assert Offers(table, p, q, key);
      forall other | Offers(table, p, other, key) ensures |q| <= |other| {
        assert PathTo(table, from, other, other[|other| - 1]);
      }
    } else {
      forall q | IsPath(table, from, q) ensures !Declares(table, q[|q| - 1], key) {
        assert Leads(table, from, q[|q| - 1]);
      }
    }
  }

  // ----- The inline cache -----

  /** What a virtual call resolves is in the cache from then on, for receivers of the declaring class, and nothing else changes. */
  lemma {:induction false} DispatchFills(
      cache: Cache, table: Table, rank: string -> nat, index: nat, receiver: string, key: MethodKey)
    requires Ranked(table, rank) && index < |cache|
    ensures var (after, m) := Dispatched(cache, table, rank, index, receiver, key);
            var r := Resolve(table, rank, receiver, key);
            && |after| == |cache|
            && (forall i :: 0 <= i < |cache| && i != index ==> after[i] == cache[i])
            && (Lookup(cache, index, receiver).None? && r.Found? ==> Lookup(after, index, r.className) == Some(r.m))
            && (Lookup(cache, index, receiver).Some? || !r.Found? ==> after == cache)
  {
    hide Resolve;
  }
}

/** The class table: method resolution, the inline cache of resolved calls, and field layout. */
module Classes {
  import opened Wrappers
  import opened Program

  datatype ClassMethod = Bytecode(m: Method) | Native

  datatype MethodKey = MethodKey(name: string, descriptor: string)

  datatype FieldDef = FieldDef(name: string, descriptor: string)

  datatype RuntimeClass = RuntimeClass(
    superClass: Option<string>,
    methods: map<MethodKey, ClassMethod>,
    instanceFields: seq<FieldDef>,
    interfaces: seq<string>)

  /** The classes that are loaded or can be loaded now. */
  type Table = map<string, RuntimeClass>

  /** Superclass chains are finite: each class ranks above its superclass. */
  ghost predicate Ranked(table: Table, rank: string -> nat) {
    forall c :: c in table && table[c].superClass.Some? ==> rank(table[c].superClass.value) < rank(c)
  }

  datatype Resolution =
    | Found(className: string, m: ClassMethod)
    | NotFound
    | NotLoaded(className: string)

  // ----- Resolution -----

  /** Names not yet listed are added in order, each once. */
  function AddNew(listed: seq<string>, names: seq<string>): (r: seq<string>)
    ensures listed <= r
    ensures forall n :: n in r <==> n in listed || n in names
    decreases |names|
  {
    if names == [] then listed
    else AddNew(if names[0] in listed then listed else listed + [names[0]], names[1..])
  }

  /** All interface names the table mentions. */
  function Mentioned(table: Table): set<string> {
    set c, k | c in table && 0 <= k < |table[c].interfaces| :: table[c].interfaces[k]
  }

  function Unlisted(table: Table, listed: seq<string>): set<string> {
    set n | n in Mentioned(table) && n !in listed
  }

  lemma {:induction false} ListingShrinks(table: Table, c: string, listed: seq<string>)
    requires c in table
    ensures var more := AddNew(listed, table[c].interfaces);
            more == listed || |Unlisted(table, more)| < |Unlisted(table, listed)|
  {
    var more := AddNew(listed, table[c].interfaces);
    if more != listed {
      AddNewAdds(listed, table[c].interfaces);
      var n :| n in more && n !in listed;
      var k :| 0 <= k < |table[c].interfaces| && table[c].interfaces[k] == n;
      assert n in Unlisted(table, listed) && n !in Unlisted(table, more);
      assert forall x :: x in Unlisted(table, more) ==> x in Unlisted(table, listed);
      assert Unlisted(table, more) < Unlisted(table, listed);
      ProperSubsetSmaller(Unlisted(table, more), Unlisted(table, listed));
    }
  }

  lemma {:induction false} AddNewAdds(listed: seq<string>, names: seq<string>)
    ensures AddNew(listed, names) == listed || exists n :: n in AddNew(listed, names) && n !in listed
    decreases |names|
  {
    if names != [] {
      if names[0] in listed {
        AddNewAdds(listed, names[1..]);
      } else {
        assert names[0] in AddNew(listed, names);
      }
    }
  }

  lemma {:induction false} ProperSubsetSmaller<T>(a: set<T>, b: set<T>)
    requires a < b
    ensures |a| < |b|
  {
    assert b == a + (b - a);
    assert b - a != {};
  }

  /** Interfaces in the order they were first met, each searched before its own parents. */
  function ResolveInInterfaces(table: Table, listed: seq<string>, i: nat, key: MethodKey): (r: Resolution)
    requires i <= |listed|
    ensures r.Found? ==> r.className in table && key in table[r.className].methods &&
                         table[r.className].methods[key] == r.m
    decreases |Unlisted(table, listed)|, |listed| - i
  {
    if i == |listed| then NotFound
    else if listed[i] !in table then ResolveInInterfaces(table, listed, i + 1, key)
    else if key in table[listed[i]].methods then Found(listed[i], table[listed[i]].methods[key])
    else
      ListingShrinks(table, listed[i], listed);
      ResolveInInterfaces(table, AddNew(listed, table[listed[i]].interfaces), i + 1, key)
  }

  /** The superclass chain first, then the interfaces met on the way. */
  function ResolveFrom(table: Table, ghost rank: string -> nat, c: string, listed: seq<string>, key: MethodKey)
    : (r: Resolution)
    requires Ranked(table, rank)
    ensures r.Found? ==> r.className in table && key in table[r.className].methods &&
                         table[r.className].methods[key] == r.m
    decreases rank(c)
  {
    if c !in table then NotLoaded(c)
    else if key in table[c].methods then Found(c, table[c].methods[key])
    else
      var met := AddNew(listed, table[c].interfaces);
      match table[c].superClass
      case Some(parent) => ResolveFrom(table, rank, parent, met, key)
      case None => ResolveInInterfaces(table, met, 0, key)
  }

  function Resolve(table: Table, ghost rank: string -> nat, c: string, key: MethodKey): Resolution
    requires Ranked(table, rank)
  {
    ResolveFrom(table, rank, c, [], key)
  }

  method AddInterfaces(listed: seq<string>, names: seq<string>) returns (r: seq<string>)
    ensures r == AddNew(listed, names)
  {
    r := listed;
    assert names[0..] == names;
    for k := 0 to |names|
      invariant AddNew(r, names[k..]) == AddNew(listed, names)
    {
      assert names[k..][0] == names[k] && names[k..][1..] == names[k + 1..];
      if names[k] !in r {
        r := r + [names[k]];
      }
    }
  }

  /** The two loops of the VM: up the superclass chain, then over a growing list of interfaces. */
  method ResolveMethod(table: Table, ghost rank: string -> nat, start: string, key: MethodKey) returns (r: Resolution)
    requires Ranked(table, rank)
    ensures r == Resolve(table, rank, start, key)
  {
    var listed: seq<string> := [];
    var current := Some(start);
    while current.Some?
      invariant match current
                case Some(c) => ResolveFrom(table, rank, c, listed, key) == Resolve(table, rank, start, key)
                case None => ResolveInInterfaces(table, listed, 0, key) == Resolve(table, rank, start, key)
      decreases current.Some?, if current.Some? then rank(current.value) else 0
    {
      if current.value !in table {
        return NotLoaded(current.value);
      }
      var class_ := table[current.value];
      if key in class_.methods {
        return Found(current.value, class_.methods[key]);
      }
      listed := AddInterfaces(listed, class_.interfaces);
      current := class_.superClass;
    }
    var i := 0;
    while i < |listed|
      invariant i <= |listed|
      invariant ResolveInInterfaces(table, listed, i, key) == Resolve(table, rank, start, key)
      decreases |Unlisted(table, listed)|, |listed| - i
    {
      var interface_ := listed[i];
      i := i + 1;
      if interface_ !in table {
        continue;
      }
      if key in table[interface_].methods {
        return Found(interface_, table[interface_].methods[key]);
      }
      ListingShrinks(table, interface_, listed);
      listed := AddInterfaces(listed, table[interface_].interfaces);
    }
    return NotFound;
  }

  // ----- The inline cache -----

  datatype Cached = Cached(resolvedClass: string, m: ClassMethod)

  type Cache = seq<Option<Cached>>

  function Lookup(cache: Cache, index: nat, receiver: string): Option<ClassMethod> {
    if index < |cache| && cache[index].Some? && cache[index].value.resolvedClass == receiver
    then Some(cache[index].value.m)
    else None
  }

  function Remember(cache: Cache, index: nat, resolvedClass: string, m: ClassMethod): Cache {
    if index < |cache| then cache[index := Some(Cached(resolvedClass, m))] else cache
  }

  /** The cache of one frame, one entry per method reference. */
  class InvokeCache {
    var entries: Cache

    constructor (size: nat)
      ensures entries == seq(size, _ => None)
    {
      entries := seq(size, _ => None);
    }

    /** The method a virtual call runs: from the cache, or resolved and then cached by resolved class. */
    method Dispatch(table: Table, ghost rank: string -> nat, index: nat, receiver: string, key: MethodKey)
      returns (m: Option<ClassMethod>)
      requires Ranked(table, rank)
      modifies this
      ensures (entries, m) == Dispatched(old(entries), table, rank, index, receiver, key)
    {
      m := Lookup(entries, index, receiver);
      if m.Some? {
        return;
      }
      var r := ResolveMethod(table, rank, receiver, key);
      if r.Found? {
        entries := Remember(entries, index, r.className, r.m);
        m := Some(r.m);
      }
    }
  }

  function Dispatched(cache: Cache, table: Table, ghost rank: string -> nat, index: nat, receiver: string, key: MethodKey)
    : (Cache, Option<ClassMethod>)
    requires Ranked(table, rank)
  {
    match Lookup(cache, index, receiver)
    case Some(m) => (cache, Some(m))
    case None =>
      match Resolve(table, rank, receiver, key)
      case Found(c, m) => (Remember(cache, index, c, m), Some(m))
      case _ => (cache, None)
  }

  /** A virtual call: the reference's index, the receiver's class, and the classes there are by then. */
  datatype Call = Call(index: nat, receiver: string, table: Table)

  /** Every cached method is the one its class declares for the site's reference. */
  ghost predicate CacheOk(cache: Cache, table: Table, keys: seq<MethodKey>) {
    |cache| == |keys| &&
    forall i :: 0 <= i < |cache| && cache[i].Some? ==>
      && cache[i].value.resolvedClass in table
      && keys[i] in table[cache[i].value.resolvedClass].methods
      && table[cache[i].value.resolvedClass].methods[keys[i]] == cache[i].value.m
  }

  /** The class table only gains classes. */
  ghost predicate Grows(before: Table, after: Table) {
    forall c :: c in before ==> c in after && after[c] == before[c]
  }

  lemma {:induction false} DispatchIsResolution(
      cache: Cache, before: Table, table: Table, rank: string -> nat, keys: seq<MethodKey>, index: nat, receiver: string)
    requires Ranked(table, rank) && Grows(before, table) && CacheOk(cache, before, keys) && index < |keys|
    ensures var (after, m) := Dispatched(cache, table, rank, index, receiver, keys[index]);
            && CacheOk(after, table, keys)
            && (m.Some? <==> Resolve(table, rank, receiver, keys[index]).Found?)
            && (m.Some? ==> m.value == Resolve(table, rank, receiver, keys[index]).m)
  {
    assert CacheOk(cache, table, keys);
  }

  /** The cache after a sequence of calls, and the method each of them ran. */
  function DispatchAll(cache: Cache, calls: seq<Call>, ghost rank: string -> nat, keys: seq<MethodKey>)
    : (r: (Cache, seq<Option<ClassMethod>>))
    requires forall c :: c in calls ==> Ranked(c.table, rank) && c.index < |keys|
    ensures |r.1| == |calls|
  {
    if calls == [] then (cache, [])
    else
      var last := calls[|calls| - 1];
      var (c, ms) := DispatchAll(cache, calls[..|calls| - 1], rank, keys);
      var (d, m) := Dispatched(c, last.table, rank, last.index, last.receiver, keys[last.index]);
      (d, ms + [m])
  }

  /**
   Inline cache coherence: whatever receivers come in whatever order while the table gains
   classes, every call runs the method that resolution would find for its receiver, though
   an entry is keyed by the class that declares the method and not by the receiver that filled it.
   */
  lemma {:induction false} CacheCoherent(calls: seq<Call>, rank: string -> nat, keys: seq<MethodKey>, k: nat)
    requires forall c :: c in calls ==> Ranked(c.table, rank) && c.index < |keys|
    requires forall i, j :: 0 <= i < j < |calls| ==> Grows(calls[i].table, calls[j].table)
    requires k < |calls|
    ensures var m := DispatchAll(seq(|keys|, _ => None), calls, rank, keys).1[k];
            var r := Resolve(calls[k].table, rank, calls[k].receiver, keys[calls[k].index]);
            (m.Some? <==> r.Found?) && (m.Some? ==> m.value == r.m)
  {
    DispatchPrefix(seq(|keys|, _ => None), calls, rank, keys, k + 1);
    assert calls[..k + 1][k] == calls[k];
    LastCallCoherent(calls[..k + 1], rank, keys);
  }

  lemma {:induction false} LastCallCoherent(calls: seq<Call>, rank: string -> nat, keys: seq<MethodKey>)
    requires forall c :: c in calls ==> Ranked(c.table, rank) && c.index < |keys|
    requires forall i, j :: 0 <= i < j < |calls| ==> Grows(calls[i].table, calls[j].table)
    requires calls != []
    ensures var last := calls[|calls| - 1];
            var m := DispatchAll(seq(|keys|, _ => None), calls, rank, keys).1[|calls| - 1];
            var r := Resolve(last.table, rank, last.receiver, keys[last.index]);
            (m.Some? <==> r.Found?) && (m.Some? ==> m.value == r.m)
  {
    hide Resolve, CacheOk, Dispatched;
    var rest, last := calls[..|calls| - 1], calls[|calls| - 1];
    DispatchKeepsCache(rest, rank, keys);
    var before := if rest == [] then map[] else rest[|rest| - 1].table;
    DispatchIsResolution(DispatchAll(seq(|keys|, _ => None), rest, rank, keys).0, before, last.table, rank, keys,
                         last.index, last.receiver);
  }

  lemma {:induction false} DispatchKeepsCache(calls: seq<Call>, rank: string -> nat, keys: seq<MethodKey>)
    requires forall c :: c in calls ==> Ranked(c.table, rank) && c.index < |keys|
    requires forall i, j :: 0 <= i < j < |calls| ==> Grows(calls[i].table, calls[j].table)
    ensures CacheOk(DispatchAll(seq(|keys|, _ => None), calls, rank, keys).0,
                    if calls == [] then map[] else calls[|calls| - 1].table, keys)
    decreases |calls|
  {
    if calls != [] {
      var rest := calls[..|calls| - 1];
      var last := calls[|calls| - 1];
      DispatchKeepsCache(rest, rank, keys);
      var before := if rest == [] then map[] else rest[|rest| - 1].table;
      DispatchIsResolution(DispatchAll(seq(|keys|, _ => None), rest, rank, keys).0, before, last.table, rank, keys,
                           last.index, last.receiver);
    }
  }

  lemma {:induction false} DispatchPrefix(cache: Cache, calls: seq<Call>, rank: string -> nat, keys: seq<MethodKey>, n: nat)
    requires forall c :: c in calls ==> Ranked(c.table, rank) && c.index < |keys|
    requires n <= |calls|
    ensures DispatchAll(cache, calls, rank, keys).1[..n] == DispatchAll(cache, calls[..n], rank, keys).1
    decreases |calls|
  {
    if n == |calls| {
      assert calls[..n] == calls;
    } else {
      var rest := calls[..|calls| - 1];
      DispatchPrefix(cache, rest, rank, keys, n);
      assert rest[..n] == calls[..n];
    }
  }

  // ----- Field layout -----

  /** The superclass chain of a class, itself first; None when a class on it is not loaded. */
  function Chain(table: Table, ghost rank: string -> nat, c: string): (r: Option<seq<string>>)
    requires Ranked(table, rank)
    ensures r.Some? ==> r.value != [] && r.value[0] == c && forall d :: d in r.value ==> d in table
    decreases rank(c)
  {
    if c !in table then None
    else match table[c].superClass
      case None => Some([c])
      case Some(parent) =>
        match Chain(table, rank, parent)
        case None => None
        case Some(rest) => Some([c] + rest)
  }

  /** The fields of an object: its own class's, then its superclass's, and so on. */
  function CollectFields(table: Table, chain: seq<string>): seq<FieldDef>
    requires forall c :: c in chain ==> c in table
  {
    if chain == [] then [] else table[chain[0]].instanceFields + CollectFields(table, chain[1..])
  }

  /** Where in a class's own fields the first with a name is. */
  function IndexOf(fields: seq<FieldDef>, name: string): (r: Option<nat>)
    ensures r.Some? ==> r.value < |fields| && fields[r.value].name == name
    ensures r.None? ==> forall k :: 0 <= k < |fields| ==> fields[k].name != name
  {
    if fields == [] then None
    else if fields[0].name == name then Some(0)
    else match IndexOf(fields[1..], name) case None => None case Some(k) => Some(k + 1)
  }

  /** The offset of a field, searched up the chain; a declaring class, if given, must match. */
  function FieldOffset(table: Table, chain: seq<string>, declaring: Option<string>, name: string): (r: Option<nat>)
    requires forall c :: c in chain ==> c in table
  {
    if chain == [] then None
    else
      var own := table[chain[0]].instanceFields;
      if (declaring.None? || declaring.value == chain[0]) && IndexOf(own, name).Some? then IndexOf(own, name)
      else match FieldOffset(table, chain[1..], declaring, name)
        case None => None
        case Some(o) => Some(|own| + o)
  }

  /** Why a walk up the superclass chain ends without a result. */
  datatype FieldError = ClassNotFound(className: string) | FieldNotFound

  /** The same search from a class on, over classes some of which may not be loaded. */
  function OffsetFrom(
      table: Table, ghost rank: string -> nat, from: Option<string>, declaring: Option<string>, name: string)
    : Result<nat, FieldError>
    requires Ranked(table, rank)
    decreases from.Some?, if from.Some? then rank(from.value) else 0
  {
    if from.None? then Err(FieldNotFound)
    else if from.value !in table then Err(ClassNotFound(from.value))
    else
      var own := table[from.value].instanceFields;
      if (declaring.None? || declaring.value == from.value) && IndexOf(own, name).Some? then Ok(IndexOf(own, name).value)
      else match OffsetFrom(table, rank, table[from.value].superClass, declaring, name)
        case Err(e) => Err(e)
        case Ok(o) => Ok(|own| + o)
  }

  /** Where the whole chain is loaded, the search is the one over the chain. */
  lemma {:induction false} LoadedOffset(
      table: Table, rank: string -> nat, c: string, declaring: Option<string>, name: string)
    requires Ranked(table, rank) && Chain(table, rank, c).Some?
    ensures OffsetFrom(table, rank, Some(c), declaring, name) ==
            match FieldOffset(table, Chain(table, rank, c).value, declaring, name)
            case None => Err(FieldNotFound)
            case Some(o) => Ok(o)
    decreases rank(c)
  {
    if table[c].superClass.Some? {
      LoadedOffset(table, rank, table[c].superClass.value, declaring, name);
    }
  }

  /** The VM's field walk: counts fields class by class until the one sought. */
  method InstanceFieldOffset(
      table: Table, ghost rank: string -> nat, objectClass: string, declaring: Option<string>, name: string)
    returns (r: Result<nat, FieldError>)
    requires Ranked(table, rank)
    ensures r == OffsetFrom(table, rank, Some(objectClass), declaring, name)
  {
    var offset: nat := 0;
    var current := Some(objectClass);
    while current.Some?
      invariant OffsetFrom(table, rank, Some(objectClass), declaring, name) ==
                match OffsetFrom(table, rank, current, declaring, name) case Err(e) => Err(e) case Ok(o) => Ok(offset + o)
      decreases current.Some?, if current.Some? then rank(current.value) else 0
    {
      if current.value !in table {
        return Err(ClassNotFound(current.value));
      }
      var class_ := table[current.value];
      var fields := class_.instanceFields;
      for k := 0 to |fields|
        invariant declaring.None? || declaring.value == current.value ==>
                    forall j :: 0 <= j < k ==> fields[j].name != name
      {
        if fields[k].name == name && (declaring.None? || declaring.value == current.value) {
          FirstIndex(fields, name, k);
          return Ok(offset + k);
        }
      }
      assert declaring.None? || declaring.value == current.value ==> IndexOf(fields, name).None?;
      offset := offset + |fields|;
      current := class_.superClass;
    }
    return Err(FieldNotFound);
  }

  lemma {:induction false} FirstIndex(fields: seq<FieldDef>, name: string, k: nat)
    requires k < |fields| && fields[k].name == name && forall j :: 0 <= j < k ==> fields[j].name != name
    ensures IndexOf(fields, name) == Some(k)
    decreases |fields|
  {
    if k > 0 {
      FirstIndex(fields[1..], name, k - 1);
    }
  }

  /** The fields an object gets from a class on, over classes some of which may not be loadable. */
  function FieldsFrom(table: Table, ghost rank: string -> nat, from: Option<string>): Result<seq<FieldDef>, FieldError>
    requires Ranked(table, rank)
    decreases from.Some?, if from.Some? then rank(from.value) else 0
  {
    if from.None? then Ok([])
    else if from.value !in table then Err(ClassNotFound(from.value))
    else match FieldsFrom(table, rank, table[from.value].superClass)
      case Err(e) => Err(e)
      case Ok(rest) => Ok(table[from.value].instanceFields + rest)
  }

  /** An object is laid out exactly when its whole chain is loaded, and then by that chain. */
  lemma {:induction false} LaidOutIff(table: Table, rank: string -> nat, c: string)
    requires Ranked(table, rank)
    ensures FieldsFrom(table, rank, Some(c)).Ok? <==> Chain(table, rank, c).Some?
    ensures Chain(table, rank, c).Some? ==>
              FieldsFrom(table, rank, Some(c)) == Ok(CollectFields(table, Chain(table, rank, c).value))
    decreases rank(c)
  {
    if c in table && table[c].superClass.Some? {
      LaidOutIff(table, rank, table[c].superClass.value);
    }
  }

  method CollectInstanceFields(table: Table, ghost rank: string -> nat, c: string)
    returns (all: Result<seq<FieldDef>, FieldError>)
    requires Ranked(table, rank)
    ensures all == FieldsFrom(table, rank, Some(c))
  {
    var fields: seq<FieldDef> := [];
    var current := Some(c);
    ghost var whole := FieldsFrom(table, rank, current);
    assert whole.Ok? ==> [] + whole.value == whole.value;
    while current.Some?
      invariant FieldsFrom(table, rank, current).Err? ==> whole == FieldsFrom(table, rank, current)
      invariant FieldsFrom(table, rank, current).Ok? ==> whole == Ok(fields + FieldsFrom(table, rank, current).value)
      decreases current.Some?, if current.Some? then rank(current.value) else 0
    {
      if current.value !in table {
        return Err(ClassNotFound(current.value));
      }
      var own, parent := table[current.value].instanceFields, table[current.value].superClass;
      if FieldsFrom(table, rank, parent).Ok? {
        var rest := FieldsFrom(table, rank, parent).value;
        assert fields + (own + rest) == (fields + own) + rest;
      }
      fields, current := fields + own, parent;
    }
    assert fields + [] == fields;
    return Ok(fields);
  }

  ghost predicate Distinct(chain: seq<string>) {
    forall i, j :: 0 <= i < j < |chain| ==> chain[i] != chain[j]
  }

  /** Where the fields of the k-th class of a chain start. */
  ghost function Start(table: Table, chain: seq<string>, k: nat): nat
    requires k <= |chain| && forall c :: c in chain ==> c in table
  {
    if k == 0 then 0 else |table[chain[0]].instanceFields| + Start(table, chain[1..], k - 1)
  }

  lemma {:induction false} ChainDistinct(table: Table, rank: string -> nat, c: string)
    requires Ranked(table, rank) && Chain(table, rank, c).Some?
    ensures Distinct(Chain(table, rank, c).value)
    ensures forall d :: d in Chain(table, rank, c).value ==> rank(d) <= rank(c)
    decreases rank(c)
  {
    if table[c].superClass.Some? {
      ChainDistinct(table, rank, table[c].superClass.value);
    }
  }

  /** The fields of the k-th class of a chain lie in one piece of the layout. */
  lemma {:induction false} CollectedAt(table: Table, chain: seq<string>, k: nat, i: nat)
    requires forall c :: c in chain ==> c in table
    requires k < |chain| && i < |table[chain[k]].instanceFields|
    ensures Start(table, chain, k) + i < |CollectFields(table, chain)|
    ensures CollectFields(table, chain)[Start(table, chain, k) + i] == table[chain[k]].instanceFields[i]
    decreases k
  {
    if k > 0 {
      CollectedAt(table, chain[1..], k - 1, i);
    }
  }

  /** With a declaring class the walk finds that class's field, and only that. */
  lemma {:induction false} DeclaredOffset(table: Table, chain: seq<string>, declaring: string, name: string)
    requires Distinct(chain) && forall c :: c in chain ==> c in table
    ensures match FieldOffset(table, chain, Some(declaring), name)
            case None => declaring !in chain || IndexOf(table[declaring].instanceFields, name).None?
            case Some(o) => exists k: nat, i: nat ::
              && k < |chain| && chain[k] == declaring
              && IndexOf(table[declaring].instanceFields, name) == Some(i) && o == Start(table, chain, k) + i
    decreases |chain|
  {
    if chain != [] {
      var rest := chain[1..];
      var own := table[chain[0]].instanceFields;
      if declaring == chain[0] && IndexOf(own, name).Some? {
        assert IndexOf(table[declaring].instanceFields, name).value == Start(table, chain, 0) + IndexOf(own, name).value;
      } else {
        assert declaring == chain[0] ==> declaring !in rest;
        DeclaredOffset(table, rest, declaring, name);
        if FieldOffset(table, rest, Some(declaring), name).Some? {
          var o := FieldOffset(table, rest, Some(declaring), name).value;
          var k: nat, i: nat :|
            && k < |rest| && rest[k] == declaring
            && IndexOf(table[declaring].instanceFields, name) == Some(i) && o == Start(table, rest, k) + i;
          assert chain[k + 1] == declaring && |own| + o == Start(table, chain, k + 1) + i;
        }
      }
    }
  }

  /** Which class of the chain a found field belongs to, and where among its own fields it is. */
  lemma {:induction false} FieldPlace(table: Table, rank: string -> nat, c: string, declaring: string, name: string)
    returns (k: nat, i: nat)
    requires Ranked(table, rank) && Chain(table, rank, c).Some?
    requires FieldOffset(table, Chain(table, rank, c).value, Some(declaring), name).Some?
    ensures var chain := Chain(table, rank, c).value;
            && k < |chain| && chain[k] == declaring
            && IndexOf(table[declaring].instanceFields, name) == Some(i)
            && FieldOffset(table, chain, Some(declaring), name).value == Start(table, chain, k) + i
  {
    var chain := Chain(table, rank, c).value;
    ChainDistinct(table, rank, c);
    DeclaredOffset(table, chain, declaring, name);
    var o := FieldOffset(table, chain, Some(declaring), name).value;
    k, i :|
      && k < |chain| && chain[k] == declaring
      && IndexOf(table[declaring].instanceFields, name) == Some(i) && o == Start(table, chain, k) + i;
  }

  /** A found offset is inside the object and names the field the declaring class contributed. */
  lemma {:induction false} OffsetIsField(table: Table, rank: string -> nat, c: string, declaring: string, name: string)
    requires Ranked(table, rank) && Chain(table, rank, c).Some?
    ensures var chain := Chain(table, rank, c).value;
            match FieldOffset(table, chain, Some(declaring), name)
            case None => declaring !in chain || IndexOf(table[declaring].instanceFields, name).None?
            case Some(o) =>
              && declaring in chain && IndexOf(table[declaring].instanceFields, name).Some?
              && o < |CollectFields(table, chain)|
              && CollectFields(table, chain)[o]
                 == table[declaring].instanceFields[IndexOf(table[declaring].instanceFields, name).value]
  {
    var chain := Chain(table, rank, c).value;
    ChainDistinct(table, rank, c);
    DeclaredOffset(table, chain, declaring, name);
    if FieldOffset(table, chain, Some(declaring), name).Some? {
      var k, i := FieldPlace(table, rank, c, declaring, name);
      CollectedAt(table, chain, k, i);
    }
  }

  lemma {:induction false} StartsApart(table: Table, chain: seq<string>, k: nat, l: nat)
    requires k < l < |chain| && forall c :: c in chain ==> c in table
    ensures Start(table, chain, k) + |table[chain[k]].instanceFields| <= Start(table, chain, l)
    decreases k
  {
    if k == 0 {
      StartAfterFirst(table, chain, l);
    } else {
      StartsApart(table, chain[1..], k - 1, l - 1);
    }
  }

  lemma {:induction false} StartAfterFirst(table: Table, chain: seq<string>, l: nat)
    requires 0 < l < |chain| && forall c :: c in chain ==> c in table
    ensures |table[chain[0]].instanceFields| <= Start(table, chain, l)
  {
  }

  /** Two fields share an offset only if they are the same field of the same class, shadowed or not. */
  lemma {:induction false} OffsetsInjective(
      table: Table, rank: string -> nat, c: string, d1: string, f1: string, d2: string, f2: string)
    requires Ranked(table, rank) && Chain(table, rank, c).Some?
    requires var chain := Chain(table, rank, c).value;
             && FieldOffset(table, chain, Some(d1), f1).Some?
             && FieldOffset(table, chain, Some(d1), f1) == FieldOffset(table, chain, Some(d2), f2)
    ensures d1 == d2 && f1 == f2
  {
    var chain := Chain(table, rank, c).value;
    var k1, i1 := FieldPlace(table, rank, c, d1, f1);
    var k2, i2 := FieldPlace(table, rank, c, d2, f2);
    if k1 < k2 {
      StartsApart(table, chain, k1, k2);
    } else if k2 < k1 {
      StartsApart(table, chain, k2, k1);
    }
  }

  /** Writing one field of an object never changes what is read from another. */
  lemma {:induction false} WritesDoNotInterfere<T>(
      table: Table, rank: string -> nat, c: string, fields: seq<T>, v: T, d1: string, f1: string, d2: string, f2: string)
    requires Ranked(table, rank) && Chain(table, rank, c).Some?
    requires var chain := Chain(table, rank, c).value;
             && |fields| == |CollectFields(table, chain)|
             && FieldOffset(table, chain, Some(d1), f1).Some? && FieldOffset(table, chain, Some(d2), f2).Some?
    requires (d1, f1) != (d2, f2)
    ensures var chain := Chain(table, rank, c).value;
            var o1, o2 := FieldOffset(table, chain, Some(d1), f1).value, FieldOffset(table, chain, Some(d2), f2).value;
            o1 < |fields| && o2 < |fields| && fields[o1 := v][o2] == fields[o2]
  {
    var chain := Chain(table, rank, c).value;
    OffsetIsField(table, rank, c, d1, f1);
    OffsetIsField(table, rank, c, d2, f2);
    if FieldOffset(table, chain, Some(d1), f1) == FieldOffset(table, chain, Some(d2), f2) {
      OffsetsInjective(table, rank, c, d1, f1, d2, f2);
    }
  }

  /** k is the nearest class of the chain with the field, and its field is at the offset. */
  ghost predicate NearestAt(table: Table, chain: seq<string>, name: string, k: nat, o: nat)
    requires forall c :: c in chain ==> c in table
  {
    && k < |chain| && FieldOffset(table, chain, Some(chain[k]), name) == Some(o)
    && forall j :: 0 <= j < k ==> IndexOf(table[chain[j]].instanceFields, name).None?
  }

  lemma {:induction false} NearestBehind(table: Table, chain: seq<string>, name: string, k: nat, o: nat)
    requires Distinct(chain) && (forall c :: c in chain ==> c in table) && chain != []
    requires IndexOf(table[chain[0]].instanceFields, name).None? && NearestAt(table, chain[1..], name, k, o)
    ensures NearestAt(table, chain, name, k + 1, |table[chain[0]].instanceFields| + o)
  {
    var rest := chain[1..];
    assert chain[k + 1] == rest[k];
    forall j | 0 <= j < k + 1 ensures IndexOf(table[chain[j]].instanceFields, name).None? {
      assert j > 0 ==> chain[j] == rest[j - 1];
    }
  }

  /** Without a declaring class the walk finds the field of the nearest class that has the name. */
  lemma {:induction false} UndeclaredIsNearest(table: Table, chain: seq<string>, name: string) returns (k: nat)
    requires Distinct(chain) && forall c :: c in chain ==> c in table
    ensures match FieldOffset(table, chain, None, name)
            case None => forall j :: 0 <= j < |chain| ==> IndexOf(table[chain[j]].instanceFields, name).None?
            case Some(o) => NearestAt(table, chain, name, k, o)
    decreases |chain|
  {
    k := 0;
    if chain != [] {
      var rest := chain[1..];
      if IndexOf(table[chain[0]].instanceFields, name).None? {
        k := UndeclaredIsNearest(table, rest, name);
        if FieldOffset(table, rest, None, name).Some? {
          NearestBehind(table, chain, name, k, FieldOffset(table, rest, None, name).value);
          k := k + 1;
        }
      }
    }
  }
}

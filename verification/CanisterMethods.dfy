/**
 Registration of canister methods by decorators. Whether a list of registrations is accepted does
 not depend on its order, nor does what is recorded, up to numbering.
 */
module CanisterMethods {
  import opened Wrappers
  import opened CandidNames
  import Candid = CandidTypes
  import CandidReader

  datatype Mode = Query | Update | Init | PostUpgrade | PreUpgrade | InspectMessage | Heartbeat | OnLowWasmMemory
  {
    /** Modes of which there may be only one method. */
    predicate Single() {
      !Query? && !Update?
    }
  }

  /** A decorated method; `body` stands for the method itself. */
  datatype Decorated = Decorated(
    mode: Mode, name: string, params: seq<Candid.Type>, ret: Option<Candid.Type>,
    composite: bool, hidden: bool, manual: bool, body: nat)
  {
    function Func(): Candid.Type {
      Candid.Func(params, if ret.None? then [] else [ret.value], if mode == Query then [Candid.Query] else [])
    }
  }

  /** An entry of `methodMeta`; only queries have `composite`. */
  datatype Info = Info(name: string, index: nat, composite: bool, hidden: bool)

  datatype Meta = Meta(
    index: nat, queries: seq<Info>, updates: seq<Info>, singles: map<Mode, (string, nat)>,
    initParams: seq<Candid.Type>, paramTypes: map<string, Candid.Type>, callbacks: map<nat, Decorated>)

  const EMPTY := Meta(0, [], [], map[], [], map[], map[])

  // ---------- One registration ----------

  predicate HasName(infos: seq<Info>, name: string) {
    infos != [] && (infos[0].name == name || HasName(infos[1..], name))
  }

  predicate SameParams(a: seq<Candid.Type>, b: seq<Candid.Type>) {
    Candid.Signature(CANDID_KEYWORDS, a) == Candid.Signature(CANDID_KEYWORDS, b)
  }

  function Other(mode: Mode): Mode {
    if mode == Init then PostUpgrade else Init
  }

  function InfoOf(d: Decorated, index: nat): Info {
    Info(d.name, index, d.mode == Query && d.composite, d.hidden)
  }

  /** `decoratorImplementation`: the metadata, and whether no error was thrown. */
  function Registered(m: Meta, d: Decorated): (Meta, bool) {
    var n := m.(index := m.index + 1);
    var done := m.callbacks[m.index := d];
    match d.mode
    case Query =>
      if HasName(m.queries, d.name) then (n, false)
      else (n.(queries := m.queries + [InfoOf(d, m.index)], paramTypes := m.paramTypes[d.name := d.Func()],
               callbacks := done), true)
    case Update =>
      if HasName(m.updates, d.name) then (n, false)
      else (n.(updates := m.updates + [InfoOf(d, m.index)], paramTypes := m.paramTypes[d.name := d.Func()],
               callbacks := done), true)
    case _ =>
      if d.mode in m.singles then (n, false)
      else
        var s := n.(singles := m.singles[d.mode := (d.name, m.index)]);
        if d.mode != Init && d.mode != PostUpgrade then (s.(callbacks := done), true)
        else if Other(d.mode) !in m.singles then (s.(initParams := d.params, callbacks := done), true)
        else if SameParams(d.params, m.initParams) then (s.(callbacks := done), true)
        else (s, false)
  }

  class CanisterClassMeta {
    var canisterMethodsIndex: nat
    var queries: seq<Info>
    var updates: seq<Info>
    var singles: map<Mode, (string, nat)>
    var initAndPostUpgradeIdlTypes: seq<Candid.Type>
    var canisterMethodIdlParamTypes: map<string, Candid.Type>
    var callbacks: map<nat, Decorated>

    function View(): Meta
      reads this
    {
      Meta(canisterMethodsIndex, queries, updates, singles, initAndPostUpgradeIdlTypes, canisterMethodIdlParamTypes,
           callbacks)
    }

    constructor ()
      ensures View() == EMPTY
    {
      canisterMethodsIndex, queries, updates, singles := 0, [], [], map[];
      initAndPostUpgradeIdlTypes, canisterMethodIdlParamTypes, callbacks := [], map[], map[];
    }

    method Register(d: Decorated) returns (ok: bool)
      modifies this
      ensures (View(), ok) == Registered(old(View()), d)
    {
      var index := canisterMethodsIndex;
      canisterMethodsIndex := canisterMethodsIndex + 1;
      if d.mode == Query {
        if HasName(queries, d.name) {
          return false;
        }
        queries := queries + [Info(d.name, index, d.composite, d.hidden)];
        canisterMethodIdlParamTypes := canisterMethodIdlParamTypes[d.name := d.Func()];
      }
      if d.mode == Update {
        if HasName(updates, d.name) {
          return false;
        }
        updates := updates + [Info(d.name, index, false, d.hidden)];
        canisterMethodIdlParamTypes := canisterMethodIdlParamTypes[d.name := d.Func()];
      }
      if d.mode.Single() {
        if d.mode in singles {
          return false;
        }
        singles := singles[d.mode := (d.name, index)];
        if d.mode == Init || d.mode == PostUpgrade {
          if Other(d.mode) in singles {
            if !SameParams(d.params, initAndPostUpgradeIdlTypes) {
              return false;
            }
          } else {
            initAndPostUpgradeIdlTypes := d.params;
          }
        }
      }
      callbacks := callbacks[index := d];
      return true;
    }

    /** The initializers of a class, in order, up to the first error. */
    method RegisterAll(ds: seq<Decorated>) returns (ok: bool)
      requires View() == EMPTY
      modifies this
      ensures ok == Accepted(ds).Some?
      ensures ok ==> View() == Accepted(ds).value
    {
      var k := 0;
      while k < |ds|
        invariant 0 <= k <= |ds|
        invariant Accepted(ds[..k]) == Some(View())
      {
        AcceptedNext(ds, k);
        ok := Register(ds[k]);
        if !ok {
          RejectedStaysRejected(ds, k + 1);
          return;
        }
        k := k + 1;
      }
      assert ds[..k] == ds;
      return true;
    }
  }

  // ---------- A list of registrations ----------

  /** The metadata after all registrations, if none of them throws. */
  function Accepted(ds: seq<Decorated>): Option<Meta> {
    if ds == [] then Some(EMPTY)
    else
      var m := Accepted(ds[..|ds| - 1]);
      if m.None? then None
      else
        var (m', ok) := Registered(m.value, ds[|ds| - 1]);
        if ok then Some(m') else None
  }

  lemma AcceptedNext(ds: seq<Decorated>, k: nat)
    requires k < |ds| && Accepted(ds[..k]).Some?
    ensures var (m, ok) := Registered(Accepted(ds[..k]).value, ds[k]);
            Accepted(ds[..k + 1]) == if ok then Some(m) else None
  {
    assert ds[..k + 1][..k] == ds[..k];
  }

  lemma {:induction false} RejectedStaysRejected(ds: seq<Decorated>, k: nat)
    requires k <= |ds| && Accepted(ds[..k]).None?
    ensures Accepted(ds).None?
    decreases |ds|
  {
    if k < |ds| {
      assert ds[..|ds| - 1][..k] == ds[..k];
      RejectedStaysRejected(ds[..|ds| - 1], k);
    } else {
      assert ds[..k] == ds;
    }
  }

  /** Two registrations that can be made in one class. */
  predicate Compatible(a: Decorated, b: Decorated) {
    && !(a.mode == b.mode && a.mode.Single())
    && !(a.mode == b.mode && !a.mode.Single() && a.name == b.name)
    && (a.mode == Init && b.mode == PostUpgrade ==> SameParams(a.params, b.params))
    && (a.mode == PostUpgrade && b.mode == Init ==> SameParams(a.params, b.params))
  }

  predicate CompatibleWithAll(d: Decorated, ds: seq<Decorated>) {
    ds == [] || (Compatible(d, ds[|ds| - 1]) && CompatibleWithAll(d, ds[..|ds| - 1]))
  }

  /** Every two of them are compatible. */
  predicate Pairwise(ds: seq<Decorated>) {
    ds == [] || (CompatibleWithAll(ds[|ds| - 1], ds[..|ds| - 1]) && Pairwise(ds[..|ds| - 1]))
  }

  // ---------- What is recorded ----------

  /** The entries of the methods of one mode, each with its place in the list. */
  function Infos(ds: seq<Decorated>, mode: Mode): seq<Info> {
    if ds == [] then []
    else
      var n := |ds| - 1;
      Infos(ds[..n], mode) + if ds[n].mode == mode then [InfoOf(ds[n], n)] else []
  }

  function Singles(ds: seq<Decorated>): map<Mode, (string, nat)> {
    if ds == [] then map[]
    else
      var n := |ds| - 1;
      if ds[n].mode.Single() then Singles(ds[..n])[ds[n].mode := (ds[n].name, n)] else Singles(ds[..n])
  }

  function ParamTypes(ds: seq<Decorated>): map<string, Candid.Type> {
    if ds == [] then map[]
    else
      var n := |ds| - 1;
      if ds[n].mode.Single() then ParamTypes(ds[..n]) else ParamTypes(ds[..n])[ds[n].name := ds[n].Func()]
  }

  /** The parameters of whichever of init and postUpgrade came first. */
  function InitParams(ds: seq<Decorated>): seq<Candid.Type> {
    if ds == [] then []
    else
      var n := |ds| - 1;
      if (ds[n].mode == Init || ds[n].mode == PostUpgrade) && Other(ds[n].mode) !in Singles(ds[..n]) then ds[n].params
      else InitParams(ds[..n])
  }

  function Callbacks(ds: seq<Decorated>): map<nat, Decorated> {
    map i: nat | i < |ds| :: ds[i]
  }

  function Recorded(ds: seq<Decorated>): Meta {
    Meta(|ds|, Infos(ds, Query), Infos(ds, Update), Singles(ds), InitParams(ds), ParamTypes(ds), Callbacks(ds))
  }

  // ---------- Acceptance ----------

  lemma {:induction false} HasNameConcat(a: seq<Info>, b: seq<Info>, name: string)
    ensures HasName(a + b, name) == (HasName(a, name) || HasName(b, name))
  {
    if a == [] {
      assert a + b == b;
    } else {
      assert (a + b)[1..] == a[1..] + b;
      HasNameConcat(a[1..], b, name);
    }
  }

  // A query or update clashes with an earlier one exactly when its name is among the entries.
  lemma {:induction false} NameClash(ds: seq<Decorated>, d: Decorated)
    requires !d.mode.Single()
    ensures HasName(Infos(ds, d.mode), d.name) <==> !CompatibleWithAll(d, ds)
  {
    if ds != [] {
      var n := |ds| - 1;
      NameClash(ds[..n], d);
      var last := if ds[n].mode == d.mode then [InfoOf(ds[n], n)] else [];
      HasNameConcat(Infos(ds[..n], d.mode), last, d.name);
      assert HasName(last, d.name) <==> last != [] && (last[0].name == d.name || HasName(last[1..], d.name));
    }
  }

  // Any other method clashes when its mode is taken, or when its signature is not the expected one.
  lemma {:induction false} SingleClash(ds: seq<Decorated>, d: Decorated)
    requires d.mode.Single() && Pairwise(ds)
    ensures CompatibleWithAll(d, ds) <==>
            && d.mode !in Singles(ds)
            && ((d.mode == Init || d.mode == PostUpgrade) && Other(d.mode) in Singles(ds) ==>
                  SameParams(d.params, InitParams(ds)))
  {
    if ds != [] {
      var n := |ds| - 1;
      SingleClash(ds[..n], d);
      if ds[n].mode.Single() {
        SingleClash(ds[..n], ds[n]);
      }
    }
  }

  lemma CallbacksSnoc(ds: seq<Decorated>, d: Decorated)
    ensures Callbacks(ds + [d]) == Callbacks(ds)[|ds| := d]
  {}

  lemma {:induction false} RegisteredRecords(ds: seq<Decorated>, d: Decorated)
    requires Pairwise(ds)
    ensures Registered(Recorded(ds), d).1 == CompatibleWithAll(d, ds)
    ensures CompatibleWithAll(d, ds) ==> Registered(Recorded(ds), d).0 == Recorded(ds + [d])
  {
    assert (ds + [d])[..|ds|] == ds;
    CallbacksSnoc(ds, d);
    if d.mode.Single() {
      SingleClash(ds, d);
    } else {
      NameClash(ds, d);
    }
  }

  /** A list of registrations is accepted exactly when every two are compatible, and then the
      metadata is a record of the list. */
  lemma {:induction false} AcceptedExactly(ds: seq<Decorated>)
    ensures Accepted(ds) == if Pairwise(ds) then Some(Recorded(ds)) else None
  {
    if ds != [] {
      var n := |ds| - 1;
      AcceptedExactly(ds[..n]);
      if Pairwise(ds[..n]) {
        RegisteredRecords(ds[..n], ds[n]);
        assert ds[..n] + [ds[n]] == ds;
      }
    }
  }

  // ---------- Order does not matter ----------

  lemma {:induction false} CompatibleWithAllMeans(d: Decorated, ds: seq<Decorated>)
    ensures CompatibleWithAll(d, ds) <==> forall e <- ds :: Compatible(d, e)
  {
    if ds != [] {
      var n := |ds| - 1;
      CompatibleWithAllMeans(d, ds[..n]);
      assert ds == ds[..n] + [ds[n]];
    }
  }

  lemma CompatibleWithAllWithout(d: Decorated, ds: seq<Decorated>, k: nat)
    requires k < |ds|
    ensures CompatibleWithAll(d, ds) <==> CompatibleWithAll(d, ds[..k] + ds[k + 1..]) && Compatible(d, ds[k])
  {
    var without := ds[..k] + ds[k + 1..];
    CompatibleWithAllMeans(d, ds);
    CompatibleWithAllMeans(d, without);
    assert ds == ds[..k] + [ds[k]] + ds[k + 1..];
    assert forall e :: e in ds <==> e in without || e == ds[k];
  }

  lemma CompatibleSymmetric(a: Decorated, b: Decorated)
    ensures Compatible(a, b) <==> Compatible(b, a)
  {
  }

  lemma Snoc(most: seq<Decorated>, last: Decorated, d: Decorated)
    ensures Pairwise(most + [last]) <==> CompatibleWithAll(last, most) && Pairwise(most)
    ensures CompatibleWithAll(d, most + [last]) <==> Compatible(d, last) && CompatibleWithAll(d, most)
  {
    assert (most + [last])[..|most|] == most;
  }

  /** Taking out one registration takes out exactly its own conflicts. */
  lemma {:induction false} PairwiseWithout(ds: seq<Decorated>, k: nat)
    requires k < |ds|
    ensures Pairwise(ds) <==> Pairwise(ds[..k] + ds[k + 1..]) && CompatibleWithAll(ds[k], ds[..k] + ds[k + 1..])
    decreases |ds|
  {
    var n := |ds| - 1;
    var most, last := ds[..n], ds[n];
    if k == n {
      assert ds[..k] + ds[k + 1..] == most;
    } else {
      var inner := most[..k] + most[k + 1..];
      assert ds[..k] + ds[k + 1..] == inner + [last];
      PairwiseWithout(most, k);
      CompatibleWithAllWithout(last, most, k);
      CompatibleSymmetric(last, ds[k]);
      Snoc(inner, last, ds[k]);
    }
  }

  lemma MultisetWithout<T>(ds: seq<T>, k: nat)
    requires k < |ds|
    ensures multiset(ds[..k] + ds[k + 1..]) == multiset(ds) - multiset{ds[k]}
  {
    assert ds == ds[..k] + [ds[k]] + ds[k + 1..];
  }

  /** Whether every two are compatible does not depend on the order. */
  lemma {:induction false} PairwisePermutes(ds: seq<Decorated>, es: seq<Decorated>)
    requires multiset(ds) == multiset(es)
    ensures Pairwise(ds) == Pairwise(es)
    decreases |ds|
  {
    if ds == [] {
      assert |multiset(es)| == 0;
    } else {
      var n := |ds| - 1;
      assert ds[n] in multiset(es);
      var k :| 0 <= k < |es| && es[k] == ds[n];
      var rest := es[..k] + es[k + 1..];
      MultisetWithout(es, k);
      MultisetWithout(ds, n);
      assert ds[..n] + ds[n + 1..] == ds[..n];
      PairwisePermutes(ds[..n], rest);
      PairwiseWithout(es, k);
      CompatibleWithAllMeans(ds[n], ds[..n]);
      CompatibleWithAllMeans(ds[n], rest);
      assert forall e :: e in ds[..n] <==> e in multiset(ds[..n]);
      assert forall e :: e in rest <==> e in multiset(rest);
    }
  }

  /** Acceptance does not depend on the order of the registrations. */
  lemma AcceptancePermutes(ds: seq<Decorated>, es: seq<Decorated>)
    requires multiset(ds) == multiset(es)
    ensures Accepted(ds).Some? == Accepted(es).Some?
  {
    AcceptedExactly(ds);
    AcceptedExactly(es);
    PairwisePermutes(ds, es);
  }

  // ---------- The record does not depend on the order either ----------

  /** The entries of a mode are those of its methods, numbered by their places; only a query is composite. */
  lemma {:induction false} InfosExact(ds: seq<Decorated>, mode: Mode, i: Info)
    ensures i in Infos(ds, mode) <==>
            && i.index < |ds|
            && var d := ds[i.index];
               && d.mode == mode && i.name == d.name && i.hidden == d.hidden
               && (i.composite <==> mode.Query? && d.composite)
  {
    if ds != [] {
      var n := |ds| - 1;
      InfosExact(ds[..n], mode, i);
      assert i.index < n ==> ds[..n][i.index] == ds[i.index];
    }
  }

  lemma {:induction false} SinglesAt(ds: seq<Decorated>, i: nat)
    requires Pairwise(ds) && i < |ds| && ds[i].mode.Single()
    ensures ds[i].mode in Singles(ds) && Singles(ds)[ds[i].mode] == (ds[i].name, i)
    decreases |ds|
  {
    var n := |ds| - 1;
    if i < n {
      SinglesAt(ds[..n], i);
      CompatibleWithAllMeans(ds[n], ds[..n]);
      assert ds[..n][i] == ds[i] && Compatible(ds[n], ds[i]);
    }
  }

  lemma {:induction false} SinglesFrom(ds: seq<Decorated>, mode: Mode) returns (i: nat)
    requires mode in Singles(ds)
    ensures i < |ds| && ds[i].mode == mode && mode.Single()
    decreases |ds|
  {
    var n := |ds| - 1;
    if ds[n].mode == mode && mode.Single() {
      i := n;
    } else {
      i := SinglesFrom(ds[..n], mode);
    }
  }

  /** No query has the name of an update. */
  ghost predicate NoSharedNames(ds: seq<Decorated>) {
    forall a, b :: a in ds && b in ds && a.mode == Query && b.mode == Update ==> a.name != b.name
  }

  lemma NoSharedNamesBefore(ds: seq<Decorated>)
    requires ds != [] && NoSharedNames(ds)
    ensures NoSharedNames(ds[..|ds| - 1])
  {
    assert forall e :: e in ds[..|ds| - 1] ==> e in ds;
  }

  lemma {:induction false} ParamTypesAt(ds: seq<Decorated>, i: nat)
    requires Pairwise(ds) && NoSharedNames(ds) && i < |ds| && !ds[i].mode.Single()
    ensures ds[i].name in ParamTypes(ds) && ParamTypes(ds)[ds[i].name] == ds[i].Func()
    ensures var t := ParamTypes(ds)[ds[i].name];
            && t.Func? && t.args == ds[i].params
            && (ds[i].ret.Some? ==> t.rets == [ds[i].ret.value]) && (ds[i].ret.None? ==> t.rets == [])
            && (ds[i].mode.Query? ==> t.annotations == [Candid.Query]) && (ds[i].mode.Update? ==> t.annotations == [])
    decreases |ds|
  {
    var n := |ds| - 1;
    if i < n {
      assert ds[..n][i] == ds[i] && ds[i] in ds && ds[n] in ds;
      NoSharedNamesBefore(ds);
      ParamTypesAt(ds[..n], i);
      CompatibleWithAllMeans(ds[n], ds[..n]);
      assert Compatible(ds[n], ds[i]);
    }
  }

  lemma {:induction false} ParamTypesFrom(ds: seq<Decorated>, name: string) returns (i: nat)
    requires name in ParamTypes(ds)
    ensures i < |ds| && ds[i].name == name && !ds[i].mode.Single()
    decreases |ds|
  {
    var n := |ds| - 1;
    if ds[n].name == name && !ds[n].mode.Single() {
      i := n;
    } else {
      i := ParamTypesFrom(ds[..n], name);
    }
  }

  predicate TakesInitParams(d: Decorated) {
    d.mode == Init || d.mode == PostUpgrade
  }

  // The recorded parameters are those of every init and postUpgrade method.
  lemma {:induction false} InitParamsAt(ds: seq<Decorated>, i: nat)
    requires Pairwise(ds) && i < |ds| && TakesInitParams(ds[i])
    ensures SameParams(ds[i].params, InitParams(ds))
    decreases |ds|
  {
    var n := |ds| - 1;
    if i < n {
      InitParamsAt(ds[..n], i);
      CompatibleWithAllMeans(ds[n], ds[..n]);
      assert ds[..n][i] == ds[i] && Compatible(ds[n], ds[i]);
      SinglesAt(ds[..n], i);
    } else if Other(ds[n].mode) in Singles(ds[..n]) {
      var j := SinglesFrom(ds[..n], Other(ds[n].mode));
      InitParamsAt(ds[..n], j);
      CompatibleWithAllMeans(ds[n], ds[..n]);
      assert ds[..n][j] == ds[j] && Compatible(ds[n], ds[j]);
    }
  }

  lemma {:induction false} NoInitParams(ds: seq<Decorated>)
    requires forall d <- ds :: !TakesInitParams(d)
    ensures InitParams(ds) == []
  {
    if ds != [] {
      assert ds[|ds| - 1] in ds;
      NoInitParams(ds[..|ds| - 1]);
    }
  }

  /** A method is recorded alike in two records, under its own number in each. */
  ghost predicate SameEntry(m: Meta, i: nat, n: Meta, j: nat, d: Decorated) {
    && i in m.callbacks && m.callbacks[i] == d && j in n.callbacks && n.callbacks[j] == d
    && (InfoOf(d, i) in m.queries <==> d.mode == Query) && (InfoOf(d, j) in n.queries <==> d.mode == Query)
    && (InfoOf(d, i) in m.updates <==> d.mode == Update) && (InfoOf(d, j) in n.updates <==> d.mode == Update)
    && (d.mode.Single() ==>
          && d.mode in m.singles && m.singles[d.mode] == (d.name, i)
          && d.mode in n.singles && n.singles[d.mode] == (d.name, j))
  }

  lemma {:induction false} EntryRecorded(ds: seq<Decorated>, i: nat, es: seq<Decorated>, j: nat)
    requires Pairwise(ds) && Pairwise(es) && i < |ds| && j < |es| && ds[i] == es[j]
    ensures SameEntry(Recorded(ds), i, Recorded(es), j, ds[i])
  {
    var d := ds[i];
    InfosExact(ds, Query, InfoOf(d, i));
    InfosExact(es, Query, InfoOf(d, j));
    InfosExact(ds, Update, InfoOf(d, i));
    InfosExact(es, Update, InfoOf(d, j));
    if d.mode.Single() {
      SinglesAt(ds, i);
      SinglesAt(es, j);
    }
  }

  lemma IndexIn(ds: seq<Decorated>, d: Decorated) returns (i: nat)
    requires d in multiset(ds)
    ensures i < |ds| && ds[i] == d
  {
    i :| 0 <= i < |ds| && ds[i] == d;
  }

  lemma SinglesPermute(ds: seq<Decorated>, es: seq<Decorated>)
    requires multiset(ds) == multiset(es) && Pairwise(ds) && Pairwise(es)
    ensures Singles(ds).Keys <= Singles(es).Keys
  {
    forall mode | mode in Singles(ds) ensures mode in Singles(es) {
      var i := SinglesFrom(ds, mode);
      assert ds[i] in multiset(ds);
      var j := IndexIn(es, ds[i]);
      SinglesAt(es, j);
    }
  }

  lemma ParamTypesPermute(ds: seq<Decorated>, es: seq<Decorated>)
    requires multiset(ds) == multiset(es) && Pairwise(ds) && Pairwise(es) && NoSharedNames(ds) && NoSharedNames(es)
    ensures forall name :: name in ParamTypes(ds) ==> name in ParamTypes(es) && ParamTypes(es)[name] == ParamTypes(ds)[name]
  {
    forall name | name in ParamTypes(ds) ensures name in ParamTypes(es) && ParamTypes(es)[name] == ParamTypes(ds)[name] {
      var i := ParamTypesFrom(ds, name);
      assert ds[i] in multiset(ds);
      var j := IndexIn(es, ds[i]);
      ParamTypesAt(ds, i);
      ParamTypesAt(es, j);
    }
  }

  lemma InitParamsPermute(ds: seq<Decorated>, es: seq<Decorated>)
    requires multiset(ds) == multiset(es) && Pairwise(ds) && Pairwise(es)
    ensures Candid.NormTypes(InitParams(ds)) == Candid.NormTypes(InitParams(es))
  {
    assert forall d :: d in es <==> d in multiset(es);
    if d :| d in ds && TakesInitParams(d) {
      assert d in multiset(ds);
      var i := IndexIn(ds, d);
      var j := IndexIn(es, d);
      InitParamsAt(ds, i);
      InitParamsAt(es, j);
      CandidReader.SignatureUnique(InitParams(ds), InitParams(es));
    } else {
      assert forall d <- es :: d in multiset(ds);
      NoInitParams(ds);
      NoInitParams(es);
    }
  }

  lemma SameMembers(ds: seq<Decorated>, es: seq<Decorated>)
    requires multiset(ds) == multiset(es)
    ensures |ds| == |es|
    ensures forall d :: d in ds <==> d in es
  {
    assert |multiset(ds)| == |ds| && |multiset(es)| == |es|;
    assert forall d :: d in ds <==> d in multiset(ds);
    assert forall d :: d in es <==> d in multiset(es);
  }

  ghost predicate SameEntries(ds: seq<Decorated>, m: Meta, es: seq<Decorated>, n: Meta) {
    forall i, j :: 0 <= i < |ds| && 0 <= j < |es| && ds[i] == es[j] ==> SameEntry(m, i, n, j, ds[i])
  }

  lemma {:induction false} EntriesPermute(ds: seq<Decorated>, es: seq<Decorated>)
    requires Pairwise(ds) && Pairwise(es)
    ensures SameEntries(ds, Recorded(ds), es, Recorded(es))
  {
    forall i, j | 0 <= i < |ds| && 0 <= j < |es| && ds[i] == es[j]
      ensures SameEntry(Recorded(ds), i, Recorded(es), j, ds[i])
    {
      EntryRecorded(ds, i, es, j);
    }
  }

  /** Two records of the same methods, up to their numbers. */
  ghost predicate SameRecord(ds: seq<Decorated>, m: Meta, es: seq<Decorated>, n: Meta) {
    && m.index == n.index == |ds| == |es|
    && SameEntries(ds, m, es, n)
    && m.singles.Keys == n.singles.Keys
    && m.paramTypes == n.paramTypes
    && Candid.NormTypes(m.initParams) == Candid.NormTypes(n.initParams)
  }

  lemma {:induction false} RecordedPermutes(ds: seq<Decorated>, es: seq<Decorated>)
    requires multiset(ds) == multiset(es) && Pairwise(ds) && Pairwise(es) && NoSharedNames(ds)
    ensures SameRecord(ds, Recorded(ds), es, Recorded(es))
  {
    SameMembers(ds, es);
    EntriesPermute(ds, es);
    SinglesPermute(ds, es);
    SinglesPermute(es, ds);
    ParamTypesEqual(ds, es);
    InitParamsPermute(ds, es);
  }

  lemma ParamTypesEqual(ds: seq<Decorated>, es: seq<Decorated>)
    requires multiset(ds) == multiset(es) && Pairwise(ds) && Pairwise(es) && NoSharedNames(ds)
    ensures ParamTypes(ds) == ParamTypes(es)
  {
    SameMembers(ds, es);
    ParamTypesPermute(ds, es);
    ParamTypesPermute(es, ds);
    assert ParamTypes(ds).Keys == ParamTypes(es).Keys;
  }

  /** The accepted metadata is the same for every order, up to the numbers of the methods, when no
      query and update share a name. */
  lemma {:induction false} RecordPermutes(ds: seq<Decorated>, es: seq<Decorated>)
    requires multiset(ds) == multiset(es) && Accepted(ds).Some? && NoSharedNames(ds)
    ensures Accepted(es).Some? && SameRecord(ds, Accepted(ds).value, es, Accepted(es).value)
  {
    AcceptancePermutes(ds, es);
    AcceptedExactly(ds);
    AcceptedExactly(es);
    RecordedPermutes(ds, es);
  }

  // The last query or update of a name decides the types recorded for it.
  lemma {:induction false} ParamTypesLast(ds: seq<Decorated>, j: nat)
    requires j < |ds| && !ds[j].mode.Single()
    requires forall k :: j < k < |ds| ==> ds[k].mode.Single() || ds[k].name != ds[j].name
    ensures ds[j].name in ParamTypes(ds) && ParamTypes(ds)[ds[j].name] == ds[j].Func()
    decreases |ds|
  {
    var n := |ds| - 1;
    if j < n {
      assert ds[..n][j] == ds[j] && forall k :: j < k < n ==> ds[..n][k] == ds[k];
      ParamTypesLast(ds[..n], j);
    }
  }

  lemma {:induction false} PairwiseAt(ds: seq<Decorated>, i: nat, j: nat)
    requires Pairwise(ds) && i < j < |ds|
    ensures Compatible(ds[j], ds[i])
    decreases |ds|
  {
    var n := |ds| - 1;
    if j < n {
      assert ds[..n][i] == ds[i] && ds[..n][j] == ds[j];
      PairwiseAt(ds[..n], i, j);
    } else {
      CompatibleWithAllMeans(ds[n], ds[..n]);
      assert ds[..n][i] == ds[i];
    }
  }

  function Swapped(ds: seq<Decorated>, i: nat, j: nat): seq<Decorated>
    requires i < |ds| && j < |ds|
  {
    ds[i := ds[j]][j := ds[i]]
  }

  predicate SharesName(a: Decorated, b: Decorated) {
    !a.mode.Single() && !b.mode.Single() && a.mode != b.mode && a.name == b.name
  }

  // No third query or update has the name that two share.
  lemma OnlyTwoShare(ds: seq<Decorated>, i: nat, j: nat, k: nat)
    requires Pairwise(ds) && i < j < |ds| && k < |ds| && k != i && k != j && SharesName(ds[i], ds[j])
    ensures ds[k].mode.Single() || ds[k].name != ds[j].name
  {
    var other := if ds[k].mode == ds[i].mode then i else j;
    if k < other {
      PairwiseAt(ds, k, other);
    } else {
      PairwiseAt(ds, other, k);
    }
  }

  lemma SwapPermutes(ds: seq<Decorated>, i: nat, j: nat)
    requires i < |ds| && j < |ds|
    ensures multiset(Swapped(ds, i, j)) == multiset(ds)
  {
  }

  /** Swapping a query and an update that share a name changes the types recorded for it. */
  lemma SwapChangesTypes(ds: seq<Decorated>, i: nat, j: nat)
    requires Pairwise(ds) && i < j < |ds| && SharesName(ds[i], ds[j])
    ensures ParamTypes(Swapped(ds, i, j)) != ParamTypes(ds)
  {
    var es := Swapped(ds, i, j);
    forall k | j < k < |ds| ensures ds[k].mode.Single() || ds[k].name != ds[j].name {
      OnlyTwoShare(ds, i, j, k);
    }
    ParamTypesLast(ds, j);
    ParamTypesLast(es, j);
    assert ParamTypes(ds)[ds[j].name] == ds[j].Func();
    assert ParamTypes(es)[ds[j].name] == ds[i].Func();
    assert ds[i].Func().annotations != ds[j].Func().annotations;
  }

  /** An order in which the record is not the same. */
  lemma SharedNameDependsOnOrder(ds: seq<Decorated>) returns (es: seq<Decorated>)
    requires Accepted(ds).Some? && !NoSharedNames(ds)
    ensures multiset(es) == multiset(ds) && Accepted(es).Some?
    ensures Accepted(es).value.paramTypes != Accepted(ds).value.paramTypes
  {
    AcceptedExactly(ds);
    var a, b :| a in ds && b in ds && a.mode == Query && b.mode == Update && a.name == b.name;
    var i :| 0 <= i < |ds| && ds[i] == a;
    var j :| 0 <= j < |ds| && ds[j] == b;
    var first, second := if i < j then i else j, if i < j then j else i;
    SwapPermutes(ds, first, second);
    SwapChangesTypes(ds, first, second);
    es := Swapped(ds, first, second);
    AcceptancePermutes(ds, es);
    AcceptedExactly(es);
  }

  ghost predicate RecordedAlike(ds: seq<Decorated>, es: seq<Decorated>) {
    Accepted(ds).Some? && Accepted(es).Some? && SameRecord(ds, Accepted(ds).value, es, Accepted(es).value)
  }

  /** Every order of an accepted list gives the same record, up to the numbers of the methods, if and only
      if no query and update share a name. */
  lemma RecordPermutesExactly(ds: seq<Decorated>)
    requires Accepted(ds).Some?
    ensures NoSharedNames(ds) <==> forall es :: multiset(es) == multiset(ds) ==> RecordedAlike(ds, es)
  {
    if NoSharedNames(ds) {
      forall es | multiset(es) == multiset(ds) ensures RecordedAlike(ds, es) {
        RecordPermutes(ds, es);
      }
    } else {
      var es := SharedNameDependsOnOrder(ds);
      assert !RecordedAlike(ds, es);
    }
  }
}

/** Pre-authenticated requests (PARs): one per prepared upload, kept in an Object Storage bucket. */
module ParService {
  import opened Wrappers

  datatype Par = Par(id: nat, name: string, objectName: string, created: Option<int>, expires: int)

  // ----- names -----

  predicate IsAlphanumeric(c: char) { 'A' <= c <= 'Z' || 'a' <= c <= 'z' || '0' <= c <= '9' }
  predicate IsIdChar(c: char) { IsAlphanumeric(c) || c == '.' || c == '_' || c == '-' }

  /** validate_transaction_id. */
  predicate ValidTransactionId(t: string) {
    1 <= |t| <= 128 && IsAlphanumeric(t[0]) && forall i :: 0 <= i < |t| ==> IsIdChar(t[i])
  }

  function ParName(prefix: string, device: string, tx: string): string { prefix + ":" + device + ":" + tx }
  function ObjectPrefix(device: string, tx: string): string { device + "/" + tx + "/" }
  predicate Listed(prefix: string, name: string) { prefix + ":" <= name }

  /** Whatever the device id is, the name of a PAR determines its device and its transaction. */
  lemma ParNameInjective(prefix: string, d: string, t: string, d': string, t': string)
    requires ValidTransactionId(t) && ValidTransactionId(t')
    ensures ParName(prefix, d, t) == ParName(prefix, d', t') <==> d == d' && t == t'
  {
    if ParName(prefix, d, t) == ParName(prefix, d', t') {
      var p := prefix + ":";
      var u, u' := d + ":" + t, d' + ":" + t';
      assert ParName(prefix, d, t) == p + u && ParName(prefix, d', t') == p + u';
      assert u == (p + u)[|p|..] && u' == (p + u')[|p|..];
      LastSeparator(d, t, d', t', ':');
    }
  }

  /** Two strings split at their last separator in one way only. */
  lemma LastSeparator(a: string, b: string, a': string, b': string, sep: char)
    requires sep !in b && sep !in b' && a + [sep] + b == a' + [sep] + b'
    ensures a == a' && b == b'
  {
    var s := a + [sep] + b;
    assert s[|a|] == sep && s[|a'|] == sep;
    assert forall k :: |a| < k < |s| ==> s[k] == b[k - |a| - 1];
    assert forall k :: |a'| < k < |s| ==> s[k] == b'[k - |a'| - 1];
    assert |a| == |a'|;
    assert a == s[..|a|] && a' == s[..|a'|];
    assert b == s[|a| + 1..] && b' == s[|a'| + 1..];
  }

  /** The name filter of the listing never hides a PAR of the agent. */
  lemma OwnNamesListed(prefix: string, d: string, t: string)
    ensures Listed(prefix, ParName(prefix, d, t))
  {
    assert ParName(prefix, d, t) == (prefix + ":") + (d + ":" + t);
  }

  /** Nor at their first separator, even when one string is only a prefix of the other. */
  lemma FirstSeparator(a: string, b: string, a': string, b': string, sep: char)
    requires sep !in a && sep !in a' && a + ([sep] + b) <= a' + ([sep] + b')
    ensures a == a' && b <= b'
  {
    var s, s' := a + ([sep] + b), a' + ([sep] + b');
    assert s == s'[..|s|];
    assert s[|a|] == sep && s'[|a|] == sep;
    assert forall k :: 0 <= k < |a'| ==> s'[k] == a'[k];
    assert |a'| <= |a|;
    assert forall k :: 0 <= k < |a| ==> s[k] == a[k] != sep;
    assert s'[|a'|] == sep;
    assert a == s[..|a|] && a' == s'[..|a|];
    assert b == s[|a| + 1..] && b' == s'[|a| + 1..];
    assert b == b'[..|b|];
  }

  /** Of two agents with colon-free prefixes neither lists a PAR of the other. */
  lemma ListedIffOwnPrefix(prefix: string, prefix': string, d: string, t: string)
    requires ':' !in prefix && ':' !in prefix'
    ensures Listed(prefix, ParName(prefix', d, t)) <==> prefix == prefix'
  {
    if prefix == prefix' {
      OwnNamesListed(prefix, d, t);
    }
    if Listed(prefix, ParName(prefix', d, t)) {
      assert prefix + ":" == prefix + ([':'] + "");
      assert ParName(prefix', d, t) == prefix' + ([':'] + (d + ":" + t));
      FirstSeparator(prefix, "", prefix', d + ":" + t, ':');
    }
  }

  /** No upload prefix lies inside another, for device ids without a slash. */
  lemma UploadPrefixesPrefixFree(d: string, t: string, d': string, t': string)
    requires '/' !in d && '/' !in d' && ValidTransactionId(t) && ValidTransactionId(t')
    ensures ObjectPrefix(d, t) <= ObjectPrefix(d', t') <==> d == d' && t == t'
  {
    if ObjectPrefix(d, t) <= ObjectPrefix(d', t') {
      assert '/' !in t && '/' !in t';
      assert ObjectPrefix(d, t) == d + (['/'] + (t + "/"));
      assert ObjectPrefix(d', t') == d' + (['/'] + (t' + "/"));
      hide *;
      FirstSeparator(d, t + "/", d', t' + "/", '/');
      assert t + "/" == t + (['/'] + "") && t' + "/" == t' + (['/'] + "");
      FirstSeparator(t, "", t', "", '/');
    }
  }

  // ----- the store -----

  function IndexOfName(store: seq<Par>, name: string): (r: Option<nat>)
    ensures r.Some? ==> r.value < |store| && store[r.value].name == name
                        && forall j :: 0 <= j < r.value ==> store[j].name != name
    ensures r.None? ==> forall j :: 0 <= j < |store| ==> store[j].name != name
  {
    if store == [] then None
    else if store[0].name == name then Some(0)
    else
      var r := IndexOfName(store[1..], name);
      if r.None? then assert forall j :: 1 <= j < |store| ==> store[j] == store[1..][j - 1]; None
      else assert forall j :: 1 <= j < r.value + 1 ==> store[j] == store[1..][j - 1]; Some(r.value + 1)
  }

  function Live(store: seq<Par>, name: string): nat {
    if store == [] then 0 else Live(store[1..], name) + if store[0].name == name then 1 else 0
  }

  predicate Stale(p: Par, cutoff: int) { p.created.Some? && p.created.value <= cutoff }

  /** The PARs left when those with the given ids are deleted. */
  function Kept(store: seq<Par>, ids: set<nat>): seq<Par> {
    if store == [] then []
    else if store[0].id in ids then Kept(store[1..], ids)
    else [store[0]] + Kept(store[1..], ids)
  }

  /** How many of the deleted ones have the name. */
  function Dropped(store: seq<Par>, ids: set<nat>, name: string): nat {
    if store == [] then 0
    else Dropped(store[1..], ids, name) + if store[0].id in ids && store[0].name == name then 1 else 0
  }

  /** The PARs that prune looks for. */
  predicate Prunable(prefix: string, p: Par, cutoff: int) { Listed(prefix, p.name) && Stale(p, cutoff) }

  /** Only PARs of a known age are old enough, those created at the cutoff included; a later cutoff finds no fewer. */
  lemma PrunableByAge(prefix: string, p: Par, cutoff: int, later: int)
    requires cutoff <= later
    ensures Prunable(prefix, p, cutoff) <==> prefix + ":" <= p.name && exists t :: p.created == Some(t) && t <= cutoff
    ensures Prunable(prefix, p, cutoff) ==> Prunable(prefix, p, later)
    ensures Prunable(prefix, p, later) && !Prunable(prefix, p, cutoff) ==> cutoff < p.created.value <= later
  {
    if Prunable(prefix, p, cutoff) {
      assert p.created == Some(p.created.value);
    }
  }

  lemma {:induction false} KeptMembers(store: seq<Par>, ids: set<nat>, p: Par)
    ensures p in Kept(store, ids) <==> p in store && p.id !in ids
    decreases |store|
  {
    if store != [] {
      KeptMembers(store[1..], ids, p);
    }
  }

  ghost predicate UniqueIds(store: seq<Par>) {
    forall i, j :: 0 <= i < j < |store| ==> store[i].id != store[j].id
  }

  function Without(store: seq<Par>, i: nat): seq<Par>
    requires i < |store|
  {
    store[..i] + store[i + 1..]
  }

  // ----- the service -----

  function Concat(pages: seq<seq<Par>>): seq<Par> {
    if pages == [] then [] else Concat(pages[..|pages| - 1]) + pages[|pages| - 1]
  }

  function OwnPars(prefix: string, pars: seq<Par>): seq<Par> {
    if pars == [] then []
    else OwnPars(prefix, pars[..|pars| - 1])
         + if Listed(prefix, pars[|pars| - 1].name) then [pars[|pars| - 1]] else []
  }

  lemma {:induction false} OwnParsConcat(prefix: string, a: seq<Par>, b: seq<Par>)
    ensures OwnPars(prefix, a + b) == OwnPars(prefix, a) + OwnPars(prefix, b)
    decreases |b|
  {
    if b == [] {
      assert a + b == a;
    } else {
      assert (a + b)[..|a + b| - 1] == a + b[..|b| - 1];
      OwnParsConcat(prefix, a, b[..|b| - 1]);
    }
  }

  lemma {:induction false} OwnParsMembers(prefix: string, pars: seq<Par>, p: Par)
    ensures p in OwnPars(prefix, pars) <==> p in pars && Listed(prefix, p.name)
    decreases |pars|
  {
    if pars != [] {
      OwnParsMembers(prefix, pars[..|pars| - 1], p);
      assert pars == pars[..|pars| - 1] + [pars[|pars| - 1]];
    }
  }

  datatype Completion = Completed(found: bool) | CompletionFailed

  /** The bucket as the operations leave it. */
  function AfterComplete(store: seq<Par>, prefix: string, device: string, tx: string, deleted: bool): seq<Par> {
    var i := IndexOfName(store, ParName(prefix, device, tx));
    if ValidTransactionId(tx) && i.Some? && deleted then Without(store, i.value) else store
  }

  class Service {
    const namePrefix: string
    const maxTtl: int
    var store: seq<Par>
    var nextId: nat

    constructor (namePrefix: string, maxTtl: int)
      ensures this.namePrefix == namePrefix && this.maxTtl == maxTtl && store == [] && Valid()
    {
      this.namePrefix, this.maxTtl, store, nextId := namePrefix, maxTtl, [], 0;
    }

    ghost predicate Valid()
      reads this
    {
      UniqueIds(store) && forall i :: 0 <= i < |store| ==> store[i].id < nextId
    }

    /** stage_upload; created tells whether the request to the bucket succeeds. */
    method Stage(device: string, tx: string, ttl: int, now: int, created: bool) returns (par: Option<Par>)
      requires Valid()
      modifies this
      ensures Valid()
      ensures par.None? <==> !(ValidTransactionId(tx) && created)
      ensures par.None? ==> store == old(store)
      ensures par.Some? ==>
                && store == old(store) + [par.value]
                && par.value.name == ParName(namePrefix, device, tx)
                && par.value.objectName == ObjectPrefix(device, tx) && par.value.created == Some(now)
                && (maxTtl >= 1 ==> now + 1 <= par.value.expires <= now + maxTtl)
                && (1 <= ttl <= maxTtl ==> par.value.expires == now + ttl)
    {
      var minutes := if ttl < maxTtl then ttl else maxTtl;
      minutes := if minutes > 1 then minutes else 1;
      if !ValidTransactionId(tx) || !created {
        return None;
      }
      var p := Par(nextId, ParName(namePrefix, device, tx), ObjectPrefix(device, tx), Some(now), now + minutes);
      store := store + [p];
      nextId := nextId + 1;
      return Some(p);
    }

    /** list_file_agent_pars: follows the pages of the listing to the last. */
    method List(pages: seq<seq<Par>>) returns (pars: seq<Par>)
      requires |pages| > 0
      ensures pars == OwnPars(namePrefix, Concat(pages))
    {
      pars := [];
      var page := 0;
      while true
        invariant 0 <= page < |pages|
        invariant pars == OwnPars(namePrefix, Concat(pages[..page]))
        decreases |pages| - page
      {
        var own := [];
        for i := 0 to |pages[page]|
          invariant own == OwnPars(namePrefix, pages[page][..i])
        {
          assert pages[page][..i + 1][..i] == pages[page][..i];
          if Listed(namePrefix, pages[page][i].name) {
            own := own + [pages[page][i]];
          }
        }
        assert pages[page][..|pages[page]|] == pages[page];
        assert pages[..page + 1][..page] == pages[..page];
        OwnParsConcat(namePrefix, Concat(pages[..page]), pages[page]);
        pars := pars + own;
        page := page + 1;
        if page == |pages| {
          assert pages[..page] == pages;
          return;
        }
      }
    }

    /** find_upload_par: the first listed PAR with the name of the transaction. */
    method Find(pages: seq<seq<Par>>, device: string, tx: string) returns (par: Option<Par>)
      requires |pages| > 0 && Concat(pages) == store
      ensures var i := IndexOfName(store, ParName(namePrefix, device, tx));
              par == if i.Some? then Some(store[i.value]) else None
    {
      var name := ParName(namePrefix, device, tx);
      var pars := List(pages);
      for i := 0 to |pars|
        invariant forall j :: 0 <= j < i ==> pars[j].name != name
      {
        if pars[i].name == name {
          FirstOwn(namePrefix, store, name, i);
          return Some(pars[i]);
        }
      }
      OwnNamesListed(namePrefix, device, tx);
      var k := IndexOfName(store, name);
      if k.Some? {
        OwnParsMembers(namePrefix, store, store[k.value]);
      }
      return None;
    }

    /** complete_upload; deleted tells whether the delete request succeeds. */
    method Complete(pages: seq<seq<Par>>, device: string, tx: string, deleted: bool) returns (r: Completion)
      requires Valid() && |pages| > 0 && Concat(pages) == store
      modifies this
      ensures Valid() && store == AfterComplete(old(store), namePrefix, device, tx, deleted)
      ensures r == Completed(false) <==>
                ValidTransactionId(tx) && Live(old(store), ParName(namePrefix, device, tx)) == 0
      ensures r == Completed(true) <==>
                ValidTransactionId(tx) && Live(old(store), ParName(namePrefix, device, tx)) > 0 && deleted
    {
      LiveIffFound(store, ParName(namePrefix, device, tx));
      if !ValidTransactionId(tx) {
        return CompletionFailed;
      }
      var par := Find(pages, device, tx);
      if par.None? {
        return Completed(false);
      }
      if !deleted {
        return CompletionFailed;
      }
      DeleteById(par.value.id, IndexOfName(store, ParName(namePrefix, device, tx)).value);
      return Completed(true);
    }

    /** The delete request: the PAR with that id goes, wherever it is. */
    method DeleteById(id: nat, ghost at: nat)
      requires Valid() && at < |store| && store[at].id == id
      modifies this`store
      ensures Valid() && store == Without(old(store), at)
    {
      var i := 0;
      while store[i].id != id
        invariant 0 <= i <= at && store == old(store)
        decreases at - i
      {
        i := i + 1;
      }
      store := store[..i] + store[i + 1..];
    }

    /** prune; the delete request number failAt, if it is reached, fails and ends the call. */
    method Prune(pages: seq<seq<Par>>, cutoff: int, failAt: nat) returns (ghost ids: set<nat>, raised: bool)
      requires Valid() && |pages| > 0 && Concat(pages) == store
      modifies this`store
      ensures Valid() && store == Kept(old(store), ids)
      ensures forall p :: p in old(store) && p.id in ids ==> Prunable(namePrefix, p, cutoff)
      ensures !raised ==> forall p :: p in old(store) && Prunable(namePrefix, p, cutoff) ==> p.id in ids
      ensures if raised then |ids| == failAt else |ids| <= failAt
      ensures forall p :: p in old(store) && (p.created.None? || p.created.value > cutoff) ==> p in store
    {
      hide OwnPars, Kept, Concat, UniqueIds, Without;
      ids, raised := {}, false;
      var pars := List(pages);
      ghost var before := store;
      KeptNone(before);
      var deletes := 0;
      for i := 0 to |pars|
        invariant Valid() && store == Kept(before, ids) && |ids| == deletes <= failAt
        invariant forall p :: p in before && p.id in ids ==> Prunable(namePrefix, p, cutoff) && p in pars[..i]
        invariant forall p :: p in pars[..i] && Stale(p, cutoff) ==> p.id in ids
      {
        var par := pars[i];
        OwnParsMembers(namePrefix, before, par);
        DistinctOwn(namePrefix, before, i);
        OneMore(pars, i);
        if par.created.None? || par.created.value > cutoff {
          continue;
        }
        if deletes == failAt {
          raised := true;
          YoungKept(namePrefix, before, ids, cutoff);
          return;
        }
        assert par.id !in ids;
        ghost var at := KeptOne(before, ids, par);
        DeleteById(par.id, at);
        ids := ids + {par.id};
        deletes := deletes + 1;
        forall p | p in before && p.id in ids
          ensures Prunable(namePrefix, p, cutoff) && p in pars[..i + 1]
        {
          if p.id == par.id {
            UniqueMember(before, p, par);
          }
        }
      }
      assert pars[..|pars|] == pars;
      forall p | p in before && Prunable(namePrefix, p, cutoff) ensures p.id in ids {
        OwnParsMembers(namePrefix, before, p);
      }
      YoungKept(namePrefix, before, ids, cutoff);
    }
  }

  lemma {:induction false} YoungKept(prefix: string, store: seq<Par>, ids: set<nat>, cutoff: int)
    requires forall p :: p in store && p.id in ids ==> Prunable(prefix, p, cutoff)
    ensures forall p :: p in store && (p.created.None? || p.created.value > cutoff) ==> p in Kept(store, ids)
  {
    forall p | p in store && (p.created.None? || p.created.value > cutoff) ensures p in Kept(store, ids) {
      KeptMembers(store, ids, p);
    }
  }

  lemma OneMore(pars: seq<Par>, i: nat)
    requires i < |pars|
    ensures forall p :: p in pars[..i + 1] <==> p in pars[..i] || p == pars[i]
  {
    assert pars[..i + 1] == pars[..i] + [pars[i]];
  }

  lemma UniqueMember(store: seq<Par>, p: Par, q: Par)
    requires UniqueIds(store) && p in store && q in store && p.id == q.id
    ensures p == q
  {
    var i :| 0 <= i < |store| && store[i] == p;
    var j :| 0 <= j < |store| && store[j] == q;
    assert i == j;
  }

  lemma {:induction false} KeptNone(store: seq<Par>)
    ensures Kept(store, {}) == store
    decreases |store|
  {
    if store != [] {
      KeptNone(store[1..]);
    }
  }

  /** Deleting one more PAR by its id. */
  lemma {:induction false} KeptOne(store: seq<Par>, ids: set<nat>, p: Par) returns (at: nat)
    requires UniqueIds(store) && p in store && p.id !in ids
    ensures at < |Kept(store, ids)| && Kept(store, ids)[at] == p
    ensures Without(Kept(store, ids), at) == Kept(store, ids + {p.id})
    decreases |store|
  {
    var rest := store[1..];
    if store[0] == p {
      at := 0;
      assert forall q :: q in rest ==> q.id != p.id;
      KeptSame(rest, ids, p.id);
      assert Without(Kept(store, ids), 0) == Kept(rest, ids);
    } else {
      assert store[0].id != p.id by {
        if store[0].id == p.id { UniqueMember(store, store[0], p); }
      }
      at := KeptOne(rest, ids, p);
      if store[0].id !in ids {
        assert Without([store[0]] + Kept(rest, ids), at + 1) == [store[0]] + Without(Kept(rest, ids), at);
        at := at + 1;
      }
    }
  }

  lemma {:induction false} KeptSame(store: seq<Par>, ids: set<nat>, id: nat)
    requires forall q :: q in store ==> q.id != id
    ensures Kept(store, ids + {id}) == Kept(store, ids)
    decreases |store|
  {
    if store != [] {
      KeptSame(store[1..], ids, id);
    }
  }

  /** The listing has no PAR twice. */
  lemma {:induction false} DistinctOwn(prefix: string, store: seq<Par>, i: nat)
    requires UniqueIds(store) && i < |OwnPars(prefix, store)|
    ensures OwnPars(prefix, store)[i] !in OwnPars(prefix, store)[..i]
    decreases |store|
  {
    var front, last := store[..|store| - 1], store[|store| - 1];
    var own := OwnPars(prefix, front);
    if i < |own| {
      DistinctOwn(prefix, front, i);
      assert OwnPars(prefix, store)[..i] == own[..i];
    } else {
      assert OwnPars(prefix, store)[..i] == own;
      assert forall k :: 0 <= k < |front| ==> front[k] == store[k] && store[k].id != last.id;
      OwnParsMembers(prefix, front, last);
    }
  }

  lemma {:induction false} FirstOwn(prefix: string, store: seq<Par>, name: string, i: nat)
    requires i < |OwnPars(prefix, store)| && OwnPars(prefix, store)[i].name == name
    requires forall j :: 0 <= j < i ==> OwnPars(prefix, store)[j].name != name
    ensures var k := IndexOfName(store, name); k.Some? && store[k.value] == OwnPars(prefix, store)[i]
    decreases |store|
  {
    var front, last := store[..|store| - 1], store[|store| - 1];
    var own := OwnPars(prefix, front);
    if i < |own| {
      assert forall j :: 0 <= j < |own| ==> OwnPars(prefix, store)[j] == own[j];
      FirstOwn(prefix, front, name, i);
      IndexInPrefix(store, |store| - 1, name);
    } else {
      assert forall j :: 0 <= j < |own| ==> OwnPars(prefix, store)[j] == own[j];
      OwnParsMembers(prefix, store, last);
      assert last in OwnPars(prefix, store) && last.name == name;
      forall k | 0 <= k < |front| ensures front[k].name != name {
        OwnParsMembers(prefix, front, front[k]);
      }
      assert forall k :: 0 <= k < |front| ==> front[k] == store[k];
    }
  }

  lemma {:induction false} IndexInPrefix(store: seq<Par>, n: nat, name: string)
    requires n <= |store| && IndexOfName(store[..n], name).Some?
    ensures IndexOfName(store, name) == IndexOfName(store[..n], name)
  {
    var k := IndexOfName(store[..n], name).value;
    assert store[k] == store[..n][k] && forall j :: 0 <= j < k ==> store[j] == store[..n][j];
    var m := IndexOfName(store, name);
    assert m.Some? && m.value == k;
  }

  lemma {:induction false} LiveIffFound(store: seq<Par>, name: string)
    ensures Live(store, name) > 0 <==> IndexOfName(store, name).Some?
    decreases |store|
  {
    if store != [] {
      LiveIffFound(store[1..], name);
    }
  }

  // ----- accounting over any sequence of operations -----

  /** The requests that reach the bucket; ids and times are whatever the bucket and the clock give. */
  datatype Op =
    | OpStage(device: string, tx: string, par: Par, created: bool)
    | OpComplete(device: string, tx: string, deleted: bool)
    | OpPrune(ids: set<nat>)

  datatype Tally = Tally(store: seq<Par>, staged: nat, completed: nat, pruned: nat)

  /** One operation, counting what it does to the PARs of one transaction. */
  function Step(t: Tally, prefix: string, device: string, tx: string, op: Op): Tally {
    match op
    case OpStage(d, x, par, created) =>
      if !ValidTransactionId(x) || !created then t
      else t.(store := t.store + [par.(name := ParName(prefix, d, x))],
              staged := t.staged + if d == device && x == tx then 1 else 0)
    case OpComplete(d, x, deleted) =>
      t.(store := AfterComplete(t.store, prefix, d, x, deleted),
         completed := t.completed
                      + if ValidTransactionId(x) && d == device && x == tx && deleted
                           && Live(t.store, ParName(prefix, d, x)) > 0 then 1 else 0)
    case OpPrune(ids) =>
      t.(store := Kept(t.store, ids), pruned := t.pruned + Dropped(t.store, ids, ParName(prefix, device, tx)))
  }

  function Steps(t: Tally, prefix: string, device: string, tx: string, ops: seq<Op>): Tally {
    if ops == [] then t else Step(Steps(t, prefix, device, tx, ops[..|ops| - 1]), prefix, device, tx, ops[|ops| - 1])
  }

  lemma {:induction false} LiveAppend(store: seq<Par>, p: Par, name: string)
    ensures Live(store + [p], name) == Live(store, name) + if p.name == name then 1 else 0
    decreases |store|
  {
    if store == [] {
      assert store + [p] == [p];
    } else {
      assert (store + [p])[1..] == store[1..] + [p];
      LiveAppend(store[1..], p, name);
    }
  }

  lemma {:induction false} LiveWithout(store: seq<Par>, i: nat, name: string)
    requires i < |store|
    ensures Live(Without(store, i), name) == Live(store, name) - if store[i].name == name then 1 else 0
    decreases |store|
  {
    if i == 0 {
      assert Without(store, 0) == store[1..];
    } else {
      assert Without(store, i)[1..] == Without(store[1..], i - 1);
      LiveWithout(store[1..], i - 1, name);
    }
  }

  lemma {:induction false} LiveKept(store: seq<Par>, ids: set<nat>, name: string)
    ensures Live(Kept(store, ids), name) == Live(store, name) - Dropped(store, ids, name)
    decreases |store|
  {
    if store != [] {
      LiveKept(store[1..], ids, name);
      var rest := Kept(store[1..], ids);
      assert ([store[0]] + rest)[1..] == rest;
    }
  }

  lemma StepAccounts(t: Tally, prefix: string, device: string, tx: string, op: Op)
    requires ValidTransactionId(tx)
    ensures var r := Step(t, prefix, device, tx, op);
            var name := ParName(prefix, device, tx);
            Live(r.store, name) - r.staged + r.completed + r.pruned
            == Live(t.store, name) - t.staged + t.completed + t.pruned
  {
    var name := ParName(prefix, device, tx);
    match op
    case OpStage(d, x, par, created) =>
      if ValidTransactionId(x) {
        ParNameInjective(prefix, d, x, device, tx);
        hide ParName, ValidTransactionId;
        LiveAppend(t.store, par.(name := ParName(prefix, d, x)), name);
      }
    case OpComplete(d, x, deleted) =>
      if ValidTransactionId(x) {
        ParNameInjective(prefix, d, x, device, tx);
        hide ParName, ValidTransactionId;
        LiveIffFound(t.store, ParName(prefix, d, x));
        var i := IndexOfName(t.store, ParName(prefix, d, x));
        if i.Some? {
          LiveWithout(t.store, i.value, name);
        }
      }
    case OpPrune(ids) => LiveKept(t.store, ids, name);
  }

  /**
   * Over any sequence of operations, of any devices and transactions, the live PARs of one transaction are
   * those it had, plus its successful stages, less its successful completions and its pruned PARs.
   */
  lemma {:induction false} LiveParsAccounted(store: seq<Par>, prefix: string, device: string, tx: string, ops: seq<Op>)
    requires ValidTransactionId(tx)
    ensures var r := Steps(Tally(store, 0, 0, 0), prefix, device, tx, ops);
            var name := ParName(prefix, device, tx);
            Live(r.store, name) == Live(store, name) + r.staged - r.completed - r.pruned
    decreases |ops|
  {
    if ops != [] {
      LiveParsAccounted(store, prefix, device, tx, ops[..|ops| - 1]);
      var before := Steps(Tally(store, 0, 0, 0), prefix, device, tx, ops[..|ops| - 1]);
      StepAccounts(before, prefix, device, tx, ops[|ops| - 1]);
    }
  }
}

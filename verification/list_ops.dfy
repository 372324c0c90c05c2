/** Operations on lists of parsed users (modules/parsing/list_ops.py). */
module ListOps {
  import opened Wrappers

  datatype Target = Target(tgUserId: Option<int>, username: Option<string>, phone: Option<string>,
                           hasPremium: Option<bool>, lastSeen: string)

  /** The representative row of a user in the new list. */
  datatype Row = Row(tgUserId: int, username: Option<string>, phone: Option<string>,
                     hasPremium: Option<bool>, lastSeen: string)

  type Lists = map<int, seq<Target>>

  datatype Error = UnknownOp | NoSources | SubtractNeedsTwo | ListNotFound | BadSampleSize

  /** The new list, by user, and the numbers recorded with it. */
  datatype Outcome = Made(rows: map<int, Row>, rawCount: nat, inserted: nat) | Rejected(error: Error)

  // ---------------------------------------------------------------- set definitions

  /** The users of one list; rows without a user id do not count. */
  function Users(list: seq<Target>): set<int> {
    if list == [] then {}
    else
      var uid := list[|list| - 1].tgUserId;
      Users(list[..|list| - 1]) + if uid.Some? then {uid.value} else {}
  }

  predicate Known(lists: Lists, sources: seq<int>) {
    forall k :: 0 <= k < |sources| ==> sources[k] in lists
  }

  function Union(lists: Lists, sources: seq<int>): set<int>
    requires Known(lists, sources)
  {
    if sources == [] then {}
    else Union(lists, sources[..|sources| - 1]) + Users(lists[sources[|sources| - 1]])
  }

  /** The source lists that hold a user. */
  function Holding(lists: Lists, sources: seq<int>, uid: int): set<int>
    requires Known(lists, sources)
  {
    if sources == [] then {}
    else
      var lid := sources[|sources| - 1];
      Holding(lists, sources[..|sources| - 1], uid) + if uid in Users(lists[lid]) then {lid} else {}
  }

  /** The least number of lists that makes an overlap: all of them unless asked otherwise, at least two
      and at most as many as there are.  An overlap of zero counts as not asked. */
  function Threshold(n: nat, minOverlap: Option<int>): int {
    var asked := if minOverlap.None? || minOverlap.value == 0 then n else minOverlap.value;
    var capped := if asked < n then asked else n;
    if capped < 2 then 2 else capped
  }

  function Overlapping(lists: Lists, sources: seq<int>, threshold: int): set<int>
    requires Known(lists, sources)
  {
    set uid | uid in Union(lists, sources) && |Holding(lists, sources, uid)| >= threshold
  }

  function Subtracted(lists: Lists, sources: seq<int>): set<int>
    requires Known(lists, sources) && sources != []
  {
    Users(lists[sources[0]]) - Union(lists, sources[1..])
  }

  // ---------------------------------------------------------------- what the loops build

  function RowOf(uid: int, t: Target): Row {
    Row(uid, t.username, t.phone, t.hasPremium, if t.lastSeen == "" then "unknown" else t.lastSeen)
  }

  /** The first row of a user in a list. */
  function FirstRow(list: seq<Target>, uid: int): Option<Row> {
    if list == [] then None
    else
      var front := FirstRow(list[..|list| - 1], uid);
      var t := list[|list| - 1];
      if front.None? && t.tgUserId == Some(uid) then Some(RowOf(uid, t)) else front
  }

  /** The first row of a user over the source lists. */
  function Representative(lists: Lists, sources: seq<int>, uid: int): Option<Row>
    requires Known(lists, sources)
  {
    if sources == [] then None
    else
      var front := Representative(lists, sources[..|sources| - 1], uid);
      if front.None? then FirstRow(lists[sources[|sources| - 1]], uid) else front
  }

  lemma {:induction false} FirstRowMeans(list: seq<Target>, uid: int)
    ensures FirstRow(list, uid).Some? <==> uid in Users(list)
  {
    if list != [] {
      FirstRowMeans(list[..|list| - 1], uid);
    }
  }

  /** Each user is represented by the first list that holds the user, and by the first row there. */
  lemma {:induction false} RepresentativeMeans(lists: Lists, sources: seq<int>, uid: int) returns (s: nat)
    requires Known(lists, sources)
    ensures Representative(lists, sources, uid).Some? <==> uid in Union(lists, sources)
    ensures s <= |sources| && (s < |sources| ==> uid in Users(lists[sources[s]]))
    ensures forall r :: 0 <= r < s ==> uid !in Users(lists[sources[r]])
    ensures Representative(lists, sources, uid) ==
            if s < |sources| then FirstRow(lists[sources[s]], uid) else None
  {
    hide Users, FirstRow;
    if sources == [] {
      s := 0;
    } else {
      var n := |sources| - 1;
      var last := lists[sources[n]];
      s := RepresentativeMeans(lists, sources[..n], uid);
      FirstRowMeans(last, uid);
      if s < n {
        FirstRowMeans(lists[sources[s]], uid);
      } else if uid !in Users(last) {
        s := n + 1;
      }
    }
  }

  /** Some row of the list is about the user. */
  predicate Listed(list: seq<Target>, uid: int) {
    exists k :: 0 <= k < |list| && list[k].tgUserId == Some(uid)
  }

  lemma {:induction false} UsersMean(list: seq<Target>, uid: int)
    ensures uid in Users(list) <==> Listed(list, uid)
  {
    if list != [] {
      var front, t := list[..|list| - 1], list[|list| - 1];
      UsersMean(front, uid);
      if Listed(front, uid) {
        var k :| 0 <= k < |front| && front[k].tgUserId == Some(uid);
        assert list[k].tgUserId == Some(uid);
      }
      if Listed(list, uid) {
        var k :| 0 <= k < |list| && list[k].tgUserId == Some(uid);
        assert k < |front| ==> front[k].tgUserId == Some(uid);
      }
    }
  }

  /** The row says of the user what the target says; a missing time of last sight becomes "unknown". */
  predicate CopiedFrom(r: Row, t: Target) {
    && t.tgUserId == Some(r.tgUserId)
    && r.username == t.username && r.phone == t.phone && r.hasPremium == t.hasPremium
    && (if t.lastSeen == "" then r.lastSeen == "unknown" else r.lastSeen == t.lastSeen)
  }

  lemma {:induction false} FirstRowAt(list: seq<Target>, uid: int) returns (k: nat)
    ensures k <= |list| && forall j :: 0 <= j < k ==> list[j].tgUserId != Some(uid)
    ensures FirstRow(list, uid).Some? <==> k < |list|
    ensures k < |list| ==> FirstRow(list, uid).value.tgUserId == uid && CopiedFrom(FirstRow(list, uid).value, list[k])
  {
    if list == [] {
      k := 0;
    } else {
      var n := |list| - 1;
      k := FirstRowAt(list[..n], uid);
      if k == n && list[n].tgUserId != Some(uid) {
        k := n + 1;
      }
    }
  }

  /** A user's row is a copy of the first target with that user, over all the source lists in order; there is
      none exactly when no list has one. */
  lemma RowIsCopied(lists: Lists, sources: seq<int>, uid: int) returns (s: nat, k: nat)
    requires Known(lists, sources)
    ensures s <= |sources| && forall r :: 0 <= r < s ==> !Listed(lists[sources[r]], uid)
    ensures s < |sources| ==> k < |lists[sources[s]]|
    ensures s < |sources| ==> forall j :: 0 <= j < k ==> lists[sources[s]][j].tgUserId != Some(uid)
    ensures if s == |sources| then Representative(lists, sources, uid).None?
            else && Representative(lists, sources, uid).Some?
                 && Representative(lists, sources, uid).value.tgUserId == uid
                 && CopiedFrom(Representative(lists, sources, uid).value, lists[sources[s]][k])
  {
    hide Users, FirstRow, Union, Listed, CopiedFrom, Representative;
    s := RepresentativeMeans(lists, sources, uid);
    k := 0;
    forall r | 0 <= r < s
      ensures !Listed(lists[sources[r]], uid)
    {
      UsersMean(lists[sources[r]], uid);
    }
    if s < |sources| {
      FirstRowMeans(lists[sources[s]], uid);
      k := FirstRowAt(lists[sources[s]], uid);
    }
  }

  /** The state of the three dictionaries after some lists, and part of one more. */
  ghost predicate Built(lists: Lists, sources: seq<int>, lid: int, part: seq<Target>,
                        rep: map<int, Row>, presence: map<int, set<int>>)
    requires Known(lists, sources)
  {
    && rep.Keys == Union(lists, sources) + Users(part)
    && presence.Keys == rep.Keys
    && (forall uid :: uid in rep ==> RepBuilt(lists, sources, part, uid, rep[uid]))
    && (forall uid :: uid in rep ==>
          presence[uid] == Holding(lists, sources, uid) + if uid in Users(part) then {lid} else {})
  }

  ghost predicate RepBuilt(lists: Lists, sources: seq<int>, part: seq<Target>, uid: int, row: Row)
    requires Known(lists, sources)
  {
    Some(row) == if Representative(lists, sources, uid).Some? then Representative(lists, sources, uid)
                 else FirstRow(part, uid)
  }

  lemma NothingBuilt(lists: Lists, lid: int)
    ensures Built(lists, [], lid, [], map[], map[])
  {
  }

  /** Reading a row without a user id changes nothing. */
  lemma SkipRow(lists: Lists, sources: seq<int>, lid: int, part: seq<Target>, t: Target,
                rep: map<int, Row>, presence: map<int, set<int>>)
    requires Known(lists, sources) && Built(lists, sources, lid, part, rep, presence) && t.tgUserId.None?
    ensures Built(lists, sources, lid, part + [t], rep, presence)
  {
    hide Representative, Union, Holding, Known;
    assert (part + [t])[..|part|] == part;
    assert Users(part + [t]) == Users(part);
  }

  /** Reading a row records its user, unless the user has a row already. */
  lemma ReadRow(lists: Lists, sources: seq<int>, lid: int, part: seq<Target>, t: Target,
                rep: map<int, Row>, presence: map<int, set<int>>)
    requires Known(lists, sources) && Built(lists, sources, lid, part, rep, presence) && t.tgUserId.Some?
    ensures var uid := t.tgUserId.value;
            Built(lists, sources, lid, part + [t],
                  if uid in rep then rep else rep[uid := RowOf(uid, t)],
                  presence[uid := (if uid in presence then presence[uid] else {}) + {lid}])
  {
    hide Representative, Union, Holding, Known, FirstRow, Users, RowOf;
    var uid := t.tgUserId.value;
    UsersSnoc(part, t);
    var rep' := if uid in rep then rep else rep[uid := RowOf(uid, t)];
    forall u | u in rep'
      ensures RepBuilt(lists, sources, part + [t], u, rep'[u])
    {
      FirstRowSnoc(part, t, u);
      FirstRowMeans(part, u);
      var _ := RepresentativeMeans(lists, sources, u);
    }
    if uid !in rep {
      HeldByNone(lists, sources, uid);
    }
  }

  lemma UsersSnoc(part: seq<Target>, t: Target)
    ensures Users(part + [t]) == Users(part) + if t.tgUserId.Some? then {t.tgUserId.value} else {}
  {
    assert (part + [t])[..|part|] == part;
  }

  lemma FirstRowSnoc(part: seq<Target>, t: Target, uid: int)
    ensures FirstRow(part + [t], uid) ==
            if FirstRow(part, uid).None? && t.tgUserId == Some(uid) then Some(RowOf(uid, t)) else FirstRow(part, uid)
  {
    assert (part + [t])[..|part|] == part;
  }

  lemma {:induction false} HoldingHas(lists: Lists, sources: seq<int>, uid: int, k: nat)
    requires Known(lists, sources) && k < |sources| && uid in Users(lists[sources[k]])
    ensures sources[k] in Holding(lists, sources, uid)
  {
    if k < |sources| - 1 {
      HoldingHas(lists, sources[..|sources| - 1], uid, k);
    }
  }

  lemma {:induction false} HoldingFrom(lists: Lists, sources: seq<int>, uid: int, lid: int) returns (k: nat)
    requires Known(lists, sources) && lid in Holding(lists, sources, uid)
    ensures k < |sources| && sources[k] == lid && uid in Users(lists[sources[k]])
  {
    var n := |sources| - 1;
    if lid in Holding(lists, sources[..n], uid) {
      k := HoldingFrom(lists, sources[..n], uid, lid);
    } else {
      k := n;
    }
  }

  lemma {:induction false} HeldByNone(lists: Lists, sources: seq<int>, uid: int)
    requires Known(lists, sources)
    ensures Holding(lists, sources, uid) != {} <==> uid in Union(lists, sources)
  {
    hide Users;
    if sources != [] {
      HeldByNone(lists, sources[..|sources| - 1], uid);
    }
  }

  /** The next list is finished. */
  lemma FinishList(lists: Lists, sources: seq<int>, lid: int, next: int,
                   rep: map<int, Row>, presence: map<int, set<int>>)
    requires Known(lists, sources) && lid in lists && Built(lists, sources, lid, lists[lid], rep, presence)
    ensures Known(lists, sources + [lid]) && Built(lists, sources + [lid], next, [], rep, presence)
  {
    hide FirstRow, Users;
    var all := sources + [lid];
    assert all[..|sources|] == sources;
    NoRows();
    forall uid | uid in rep
      ensures RepBuilt(lists, all, [], uid, rep[uid])
    {
      assert RepBuilt(lists, sources, lists[lid], uid, rep[uid]);
    }
  }

  lemma NoRows()
    ensures Users([]) == {} && forall uid :: FirstRow([], uid) == None
  {
  }

  // ---------------------------------------------------------------- sequences without repetition

  function Elements(s: seq<int>): set<int> {
    set k | 0 <= k < |s| :: s[k]
  }

  predicate Distinct(s: seq<int>) {
    forall i, j :: 0 <= i < j < |s| ==> s[i] != s[j]
  }

  lemma ElementsSnoc(s: seq<int>, x: int)
    ensures Elements(s + [x]) == Elements(s) + {x}
  {
    var t := s + [x];
    forall y
      ensures y in Elements(t) <==> y in Elements(s) + {x}
    {
      if k :| 0 <= k < |s| && s[k] == y {
        assert t[k] == y;
      }
      assert t[|s|] == x;
    }
  }

  lemma {:induction false} DistinctSize(s: seq<int>)
    requires Distinct(s)
    ensures |Elements(s)| == |s|
  {
    hide Elements;
    if s == [] {
      NoElements();
    } else {
      var front := s[..|s| - 1];
      assert s == front + [s[|s| - 1]];
      DistinctSize(front);
      ElementsSnoc(front, s[|s| - 1]);
      NotInFront(front, s[|s| - 1]);
    }
  }

  lemma NoElements()
    ensures Elements([]) == {}
  {
  }

  lemma NotInFront(front: seq<int>, x: int)
    requires Distinct(front + [x])
    ensures x !in Elements(front)
  {
    forall k | 0 <= k < |front|
      ensures front[k] != x
    {
      assert (front + [x])[k] != (front + [x])[|front|];
    }
  }

  lemma SwapMeans(s: seq<int>, i: nat, j: nat)
    requires j <= i < |s| && Distinct(s)
    ensures var t := s[i := s[j]][j := s[i]]; Distinct(t) && Elements(t) == Elements(s)
  {
    var t := s[i := s[j]][j := s[i]];
    forall x
      ensures x in Elements(t) <==> x in Elements(s)
    {
      assert t[j] == s[i] && t[i] == s[j];
      if k :| 0 <= k < |s| && s[k] == x {
        assert k != i && k != j ==> t[k] == x;
      }
      if k :| 0 <= k < |t| && t[k] == x {
        assert k != i && k != j ==> s[k] == x;
      }
    }
  }

  /** The library's shuffle: swaps with random partners, here drawn from `draws`. */
  method Shuffle(pool: seq<int>, draws: seq<nat>) returns (s: seq<int>)
    requires Distinct(pool)
    ensures Distinct(s) && Elements(s) == Elements(pool)
  {
    hide Distinct, Elements;
    s := pool;
    var i := |s| - 1;
    while i >= 1
      invariant i < |s| == |pool|
      invariant Distinct(s) && Elements(s) == Elements(pool)
    {
      var j := (if i < |draws| then draws[i] else 0) % (i + 1);
      SwapMeans(s, i, j);
      s := s[i := s[j]][j := s[i]];
      i := i - 1;
    }
  }

  lemma PrefixMeans(s: seq<int>, n: nat)
    requires Distinct(s) && n <= |s|
    ensures Elements(s[..n]) <= Elements(s) && |Elements(s[..n])| == n
  {
    DistinctSize(s[..n]);
    forall x | x in Elements(s[..n])
      ensures x in Elements(s)
    {
      var k :| 0 <= k < n && s[..n][k] == x;
      assert s[k] == x;
    }
  }

  // ---------------------------------------------------------------- the operation

  /** The first half of `run_list_op`: one pass over all rows of all source lists.  `order` are the keys
      of `rep` as the dictionary keeps them. */
  method Build(lists: Lists, sources: seq<int>)
    returns (order: seq<int>, rep: map<int, Row>, presence: map<int, set<int>>, perList: map<int, set<int>>)
    requires Known(lists, sources)
    ensures Built(lists, sources, 0, [], rep, presence)
    ensures Distinct(order) && Elements(order) == rep.Keys
    ensures forall k :: 0 <= k < |sources| ==> sources[k] in perList && perList[sources[k]] == Users(lists[sources[k]])
  {
    hide Built, Distinct, Elements, RowOf, Users;
    order, rep, presence, perList := [], map[], map[], map[];
    NothingBuilt(lists, 0);
    NoOrder();
    if sources != [] {
      NothingBuilt(lists, sources[0]);
    }
    for s := 0 to |sources|
      invariant Known(lists, sources[..s])
      invariant Built(lists, sources[..s], if s < |sources| then sources[s] else 0, [], rep, presence)
      invariant Distinct(order) && Elements(order) == rep.Keys
      invariant forall k :: 0 <= k < s ==> sources[k] in perList && perList[sources[k]] == Users(lists[sources[k]])
    {
      var lid := sources[s];
      var list := lists[lid];
      var idsHere: set<int> := {};
      NoRows();
      for t := 0 to |list|
        invariant Built(lists, sources[..s], lid, list[..t], rep, presence)
        invariant Distinct(order) && Elements(order) == rep.Keys
        invariant idsHere == Users(list[..t])
      {
        assert list[..t + 1] == list[..t] + [list[t]];
        UsersSnoc(list[..t], list[t]);
        if list[t].tgUserId.None? {
          SkipRow(lists, sources[..s], lid, list[..t], list[t], rep, presence);
        } else {
          ReadRow(lists, sources[..s], lid, list[..t], list[t], rep, presence);
          var uid := list[t].tgUserId.value;
          idsHere := idsHere + {uid};
          presence := presence[uid := (if uid in presence then presence[uid] else {}) + {lid}];
          if uid !in rep {
            OrderSnoc(order, uid);
            rep := rep[uid := RowOf(uid, list[t])];
            order := order + [uid];
          }
        }
      }
      assert list[..|list|] == list;
      assert sources[..s + 1] == sources[..s] + [lid];
      FinishList(lists, sources[..s], lid, if s + 1 < |sources| then sources[s + 1] else 0, rep, presence);
      perList := perList[lid := idsHere];
    }
    assert sources[..|sources|] == sources;
  }

  lemma NoOrder()
    ensures Distinct([]) && Elements([]) == {}
  {
  }

  lemma OrderSnoc(order: seq<int>, uid: int)
    requires Distinct(order) && uid !in Elements(order)
    ensures Distinct(order + [uid]) && Elements(order + [uid]) == Elements(order) + {uid}
  {
    ElementsSnoc(order, uid);
    forall k | 0 <= k < |order|
      ensures order[k] != uid
    {
      assert order[k] in Elements(order);
    }
  }

  const OPS := {"intersect", "union", "subtract", "sample"}

  /** Why the operation is refused, if so, in the order of the checks. */
  function Refusal(lists: Lists, op: string, sources: seq<int>, sampleSize: Option<int>): Option<Error> {
    if op !in OPS then Some(UnknownOp)
    else if sources == [] then Some(NoSources)
    else if op == "subtract" && |sources| < 2 then Some(SubtractNeedsTwo)
    else if !Known(lists, sources) then Some(ListNotFound)
    else if op == "sample" && (sampleSize.None? || sampleSize.value < 1) then Some(BadSampleSize)
    else None
  }

  /** The users an operation may select: one set, except that a sample is any of its size. */
  ghost predicate Selection(lists: Lists, op: string, sources: seq<int>, minOverlap: Option<int>,
                            sampleSize: Option<int>, selected: set<int>)
    requires Refusal(lists, op, sources, sampleSize).None?
  {
    var all := Union(lists, sources);
    if op == "intersect" then selected == Overlapping(lists, sources, Threshold(|sources|, minOverlap))
    else if op == "union" then selected == all
    else if op == "subtract" then selected == Subtracted(lists, sources)
    else selected <= all && |selected| == if sampleSize.value < |all| then sampleSize.value else |all|
  }

  /** The branch of `run_list_op` for a subtraction. */
  method Subtract(lists: Lists, sources: seq<int>, perList: map<int, set<int>>) returns (selected: set<int>)
    requires Known(lists, sources) && sources != []
    requires forall k :: 0 <= k < |sources| ==> sources[k] in perList && perList[sources[k]] == Users(lists[sources[k]])
    ensures selected == Subtracted(lists, sources) && selected <= Union(lists, sources)
  {
    hide Users, Union;
    var base := perList[sources[0]];
    var minus: set<int> := {};
    EmptyUnion(lists);
    for s := 1 to |sources|
      invariant Known(lists, sources[1..s]) && minus == Union(lists, sources[1..s])
    {
      assert sources[1..s + 1] == sources[1..s] + [sources[s]];
      UnionSnoc(lists, sources[1..s], sources[s]);
      minus := minus + perList[sources[s]];
    }
    assert sources[1..|sources|] == sources[1..];
    FirstInUnion(lists, sources);
    return base - minus;
  }

  /** The branch for an intersection. */
  method Intersect(lists: Lists, sources: seq<int>, minOverlap: Option<int>, presence: map<int, set<int>>)
    returns (selected: set<int>)
    requires Known(lists, sources) && presence.Keys == Union(lists, sources)
    requires forall uid :: uid in presence ==> presence[uid] == Holding(lists, sources, uid)
    ensures selected == Overlapping(lists, sources, Threshold(|sources|, minOverlap))
    ensures selected <= Union(lists, sources)
  {
    hide Union, Holding;
    var threshold := if minOverlap.None? || minOverlap.value == 0 then |sources| else minOverlap.value;
    threshold := if threshold < |sources| then threshold else |sources|;
    threshold := if threshold < 2 then 2 else threshold;
    return set uid | uid in presence && |presence[uid]| >= threshold;
  }

  /** The branch for a sample. */
  method Sample(order: seq<int>, size: int, draws: seq<nat>) returns (selected: set<int>)
    requires Distinct(order) && size >= 1
    ensures selected <= Elements(order)
    ensures |selected| == if size < |Elements(order)| then size else |Elements(order)|
  {
    hide Distinct, Elements;
    var pool := Shuffle(order, draws);
    DistinctSize(pool);
    var n := if size < |pool| then size else |pool|;
    PrefixMeans(pool, n);
    return Elements(pool[..n]);
  }

  /** `run_list_op`: on success, the new list has one row for each selected user, taken from the first
      source list that holds the user. */
  method RunListOp(lists: Lists, op: string, sources: seq<int>, minOverlap: Option<int>, sampleSize: Option<int>,
                   draws: seq<nat>) returns (r: Outcome)
    ensures r.Rejected? <==> Refusal(lists, op, sources, sampleSize).Some?
    ensures r.Rejected? ==> Some(r.error) == Refusal(lists, op, sources, sampleSize)
    ensures r.Made? ==>
              && Selection(lists, op, sources, minOverlap, sampleSize, r.rows.Keys)
              && (forall uid :: uid in r.rows ==> Some(r.rows[uid]) == Representative(lists, sources, uid))
              && r.inserted == |r.rows| && r.rawCount == |r.rows|
  {
    hide Built, Users, Union, Holding, Representative, Distinct, Elements, Overlapping, Subtracted, NewList;
    if op !in OPS {
      return Rejected(UnknownOp);
    }
    if sources == [] {
      return Rejected(NoSources);
    }
    if op == "subtract" && |sources| < 2 {
      return Rejected(SubtractNeedsTwo);
    }
    for s := 0 to |sources|
      invariant Known(lists, sources[..s])
    {
      if sources[s] !in lists {
        return Rejected(ListNotFound);
      }
    }
    assert sources[..|sources|] == sources;
    var order, rep, presence, perList := Build(lists, sources);
    BuiltMeans(lists, sources, rep, presence);

    var selected: set<int>;
    if op == "intersect" {
      selected := Intersect(lists, sources, minOverlap, presence);
    } else if op == "union" {
      selected := rep.Keys;
    } else if op == "subtract" {
      selected := Subtract(lists, sources, perList);
    } else {
      if sampleSize.None? || sampleSize.value < 1 {
        return Rejected(BadSampleSize);
      }
      selected := Sample(order, sampleSize.value, draws);
    }
    return NewList(selected, rep);
  }

  /** The rows of the selected users. */
  function NewList(selected: set<int>, rep: map<int, Row>): (r: Outcome)
    requires selected <= rep.Keys
    ensures r.Made? && r.rows.Keys == selected && r.rawCount == |r.rows| && r.inserted == |r.rows|
    ensures forall uid :: uid in selected ==> r.rows[uid] == rep[uid]
  {
    var rows := map uid | uid in selected && uid in rep :: rep[uid];
    assert rows.Keys == selected;
    Made(rows, |selected|, |rows|)
  }

  lemma BuiltMeans(lists: Lists, sources: seq<int>, rep: map<int, Row>, presence: map<int, set<int>>)
    requires Known(lists, sources) && Built(lists, sources, 0, [], rep, presence)
    ensures rep.Keys == Union(lists, sources) && presence.Keys == rep.Keys
    ensures forall uid :: uid in rep ==>
              Some(rep[uid]) == Representative(lists, sources, uid) && presence[uid] == Holding(lists, sources, uid)
  {
    hide Union, Representative, Holding;
    NoRows();
    forall uid | uid in rep
      ensures Some(rep[uid]) == Representative(lists, sources, uid)
    {
      assert RepBuilt(lists, sources, [], uid, rep[uid]);
    }
  }

  lemma EmptyUnion(lists: Lists)
    ensures Union(lists, []) == {}
  {
  }

  lemma UnionSnoc(lists: Lists, sources: seq<int>, lid: int)
    requires Known(lists, sources) && lid in lists
    ensures Known(lists, sources + [lid]) && Union(lists, sources + [lid]) == Union(lists, sources) + Users(lists[lid])
  {
    assert (sources + [lid])[..|sources|] == sources;
  }

  lemma {:induction false} UnionHas(lists: Lists, sources: seq<int>, uid: int, k: nat)
    requires Known(lists, sources) && k < |sources| && uid in Users(lists[sources[k]])
    ensures uid in Union(lists, sources)
  {
    if k < |sources| - 1 {
      UnionHas(lists, sources[..|sources| - 1], uid, k);
    }
  }

  lemma {:induction false} UnionFrom(lists: Lists, sources: seq<int>, uid: int) returns (k: nat)
    requires Known(lists, sources) && uid in Union(lists, sources)
    ensures k < |sources| && uid in Users(lists[sources[k]])
  {
    var n := |sources| - 1;
    if uid in Union(lists, sources[..n]) {
      k := UnionFrom(lists, sources[..n], uid);
    } else {
      k := n;
    }
  }

  lemma FirstInUnion(lists: Lists, sources: seq<int>)
    requires Known(lists, sources) && sources != []
    ensures Users(lists[sources[0]]) <= Union(lists, sources)
  {
    forall uid | uid in Users(lists[sources[0]])
      ensures uid in Union(lists, sources)
    {
      UnionHas(lists, sources, uid, 0);
    }
  }

  // ---------------------------------------------------------------- what the operations mean

  /** A union holds the users of any list. */
  lemma UnionMeans(lists: Lists, sources: seq<int>, uid: int)
    requires Known(lists, sources)
    ensures uid in Union(lists, sources) <==> exists s :: 0 <= s < |sources| && Listed(lists[sources[s]], uid)
  {
    hide Union, Users, Listed;
    if uid in Union(lists, sources) {
      var s := UnionFrom(lists, sources, uid);
      UsersMean(lists[sources[s]], uid);
    }
    if exists s :: 0 <= s < |sources| && Listed(lists[sources[s]], uid) {
      var s :| 0 <= s < |sources| && Listed(lists[sources[s]], uid);
      UsersMean(lists[sources[s]], uid);
      UnionHas(lists, sources, uid, s);
    }
  }

  /** A subtraction holds the users of the first list that are in none of the others. */
  lemma SubtractMeans(lists: Lists, sources: seq<int>, uid: int)
    requires Known(lists, sources) && sources != []
    ensures uid in Subtracted(lists, sources) <==>
              Listed(lists[sources[0]], uid) && forall s :: 1 <= s < |sources| ==> !Listed(lists[sources[s]], uid)
  {
    hide Union, Users, Listed;
    UsersMean(lists[sources[0]], uid);
    UnionMeans(lists, sources[1..], uid);
    assert forall s :: 1 <= s < |sources| ==> sources[s] == sources[1..][s - 1];
    assert forall s :: 0 <= s < |sources[1..]| ==> sources[1..][s] == sources[s + 1];
  }

  /** Which fault of a request is reported: the first in the order of the checks. */
  lemma RefusalExact(lists: Lists, op: string, sources: seq<int>, sampleSize: Option<int>)
    ensures var known := op == "intersect" || op == "union" || op == "subtract" || op == "sample";
            var enough := sources != [] && (op == "subtract" ==> |sources| >= 2);
            var found := forall k :: 0 <= k < |sources| ==> sources[k] in lists;
            var sized := op == "sample" ==> sampleSize.Some? && sampleSize.value >= 1;
            var r := Refusal(lists, op, sources, sampleSize);
            && (r == Some(UnknownOp) <==> !known)
            && (r == Some(NoSources) <==> known && sources == [])
            && (r == Some(SubtractNeedsTwo) <==> op == "subtract" && |sources| == 1)
            && (r == Some(ListNotFound) <==> known && enough && !found)
            && (r == Some(BadSampleSize) <==> known && enough && found && !sized)
            && (r == None <==> known && enough && found && sized)
  {
  }

  /** Raising the overlap asked for never adds a user; zero counts as not asking, so it is excluded. */
  lemma IntersectAntitone(lists: Lists, sources: seq<int>, low: int, high: int)
    requires Known(lists, sources) && low != 0 && high != 0 && low <= high
    ensures Overlapping(lists, sources, Threshold(|sources|, Some(high))) <=
            Overlapping(lists, sources, Threshold(|sources|, Some(low)))
  {
    hide Union, Holding;
  }

  lemma HoldingSize(lists: Lists, sources: seq<int>, uid: int)
    requires Known(lists, sources)
    ensures Holding(lists, sources, uid) <= Elements(sources)
    ensures |Holding(lists, sources, uid)| <= |Elements(sources)| <= |sources|
  {
    hide Users, Holding;
    forall lid | lid in Holding(lists, sources, uid)
      ensures lid in Elements(sources)
    {
      var k := HoldingFrom(lists, sources, uid, lid);
    }
    SubsetSize(Holding(lists, sources, uid), Elements(sources));
    ElementsSize(sources);
  }

  lemma {:induction false} ElementsSize(s: seq<int>)
    ensures |Elements(s)| <= |s|
    ensures !Distinct(s) ==> |Elements(s)| < |s|
  {
    hide Elements;
    if s == [] {
      NoElements();
    } else {
      var front, x := s[..|s| - 1], s[|s| - 1];
      assert s == front + [x];
      ElementsSize(front);
      ElementsSnoc(front, x);
      if Distinct(front) && !Distinct(s) {
        RepeatInFront(front, x);
      }
    }
  }

  lemma RepeatInFront(front: seq<int>, x: int)
    requires Distinct(front) && !Distinct(front + [x])
    ensures x in Elements(front)
  {
    var s := front + [x];
    var i, j :| 0 <= i < j < |s| && s[i] == s[j];
    assert j == |front|;
    assert front[i] == x;
  }

  lemma SubsetSize(a: set<int>, b: set<int>)
    requires a <= b
    ensures |a| <= |b| && (|a| == |b| ==> a == b)
  {
    assert b == a + (b - a);
    assert |b| == |a| + |b - a|;
  }

  /** The default overlap is the true intersection when two or more different lists are given.
      Otherwise, for a single list or a list named twice, it selects nobody. */
  lemma IntersectDefaultExact(lists: Lists, sources: seq<int>, uid: int)
    requires Known(lists, sources) && sources != []
    ensures uid in Overlapping(lists, sources, Threshold(|sources|, None)) <==>
              |sources| >= 2 && Distinct(sources) &&
              forall k :: 0 <= k < |sources| ==> uid in Users(lists[sources[k]])
  {
    hide Users, Union, Holding;
    HoldingSize(lists, sources, uid);
    ElementsSize(sources);
    if |sources| >= 2 && Distinct(sources) {
      DistinctSize(sources);
      SubsetSize(Holding(lists, sources, uid), Elements(sources));
      if uid in Overlapping(lists, sources, Threshold(|sources|, None)) {
        forall k | 0 <= k < |sources|
          ensures uid in Users(lists[sources[k]])
        {
          assert sources[k] in Holding(lists, sources, uid);
          var l := HoldingFrom(lists, sources, uid, sources[k]);
        }
      }
      if forall k :: 0 <= k < |sources| ==> uid in Users(lists[sources[k]]) {
        UnionHas(lists, sources, uid, 0);
        forall lid | lid in Elements(sources)
          ensures lid in Holding(lists, sources, uid)
        {
          var k :| 0 <= k < |sources| && sources[k] == lid;
          HoldingHas(lists, sources, uid, k);
        }
        assert Holding(lists, sources, uid) == Elements(sources);
      }
    }
  }

  /** The different source lists that hold a user, by comprehension. */
  function Holders(lists: Lists, sources: seq<int>, uid: int): set<int> {
    set lid | lid in Elements(sources) && lid in lists && uid in Users(lists[lid])
  }

  /** The overlap counts the source lists that hold the user, and asks for max(2, min(m, n)) of them. */
  lemma OverlapMeans(lists: Lists, sources: seq<int>, minOverlap: int, uid: int)
    requires Known(lists, sources) && minOverlap != 0
    ensures uid in Overlapping(lists, sources, Threshold(|sources|, Some(minOverlap))) <==>
              var held := |Holders(lists, sources, uid)|;
              held >= 2 && (held >= minOverlap || held >= |sources|)
  {
    hide Users, Union, Holding, Elements;
    var held := Holders(lists, sources, uid);
    forall lid
      ensures lid in Holding(lists, sources, uid) <==> lid in held
    {
      if lid in Holding(lists, sources, uid) {
        var k := HoldingFrom(lists, sources, uid, lid);
        ElementAt(sources, k);
      }
      if lid in held {
        var k := ElementFrom(sources, lid);
        HoldingHas(lists, sources, uid, k);
      }
    }
    assert Holding(lists, sources, uid) == held;
    HeldByNone(lists, sources, uid);
  }

  /** What each operation may select, user by user: the union of all lists; what the first list has and no
      other; what enough different lists have, all of them unless another overlap is asked for; or a sample of
      the union, of the size asked for or all there is. */
  lemma SelectedMeans(lists: Lists, op: string, sources: seq<int>, minOverlap: Option<int>, sampleSize: Option<int>,
                      selected: set<int>, uid: int)
    requires Refusal(lists, op, sources, sampleSize).None?
    requires Selection(lists, op, sources, minOverlap, sampleSize, selected)
    ensures op == "union" ==> (uid in selected <==> exists s :: 0 <= s < |sources| && Listed(lists[sources[s]], uid))
    ensures op == "subtract" ==>
              (uid in selected <==>
                 Listed(lists[sources[0]], uid) && forall s :: 1 <= s < |sources| ==> !Listed(lists[sources[s]], uid))
    ensures op == "intersect" ==>
              (uid in selected <==>
                 var held := |Holders(lists, sources, uid)|;
                 var asked := if minOverlap in {None, Some(0)} then |sources| else minOverlap.value;
                 held >= 2 && (held >= asked || held >= |sources|))
    ensures op == "sample" ==>
              && (uid in selected ==> uid in Union(lists, sources))
              && (|selected| == sampleSize.value < |Union(lists, sources)|
                  || |selected| == |Union(lists, sources)| <= sampleSize.value)
  {
    hide Users, Union, Holding, Holders, Listed, Overlapping, Subtracted;
    UnionMeans(lists, sources, uid);
    SubtractMeans(lists, sources, uid);
    var asked := if minOverlap in {None, Some(0)} then |sources| else minOverlap.value;
    OverlapMeans(lists, sources, asked, uid);
  }

  lemma ElementAt(s: seq<int>, k: nat)
    requires k < |s|
    ensures s[k] in Elements(s)
  {
  }

  lemma ElementFrom(s: seq<int>, x: int) returns (k: nat)
    requires x in Elements(s)
    ensures k < |s| && s[k] == x
  {
    k :| 0 <= k < |s| && s[k] == x;
  }

  /** For different lists, subtraction and the overlap of two partition the first list: a user of the
      first list is in exactly one of the two results. */
  lemma SubtractAndOverlapPartition(lists: Lists, sources: seq<int>, uid: int)
    requires Known(lists, sources) && |sources| >= 2 && Distinct(sources) && uid in Users(lists[sources[0]])
    ensures uid in Subtracted(lists, sources) <==>
              uid !in Overlapping(lists, sources, Threshold(|sources|, Some(2)))
  {
    hide Users, Union, Holding;
    var first, rest := sources[0], sources[1..];
    UnionHas(lists, sources, uid, 0);
    HoldingHas(lists, sources, uid, 0);
    if uid in Union(lists, rest) {
      var k := UnionFrom(lists, rest, uid);
      HoldingHas(lists, sources, uid, k + 1);
      SubsetSize({first, sources[k + 1]}, Holding(lists, sources, uid));
    } else {
      forall lid | lid in Holding(lists, sources, uid)
        ensures lid == first
      {
        var k := HoldingFrom(lists, sources, uid, lid);
        if k > 0 {
          UnionHas(lists, rest, uid, k - 1);
        }
      }
      assert Holding(lists, sources, uid) == {first};
    }
  }
}

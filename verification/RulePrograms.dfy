// Grouping the showings a rule's search returned into programs (app/auto_rules.py `_programs`),
// and the end-to-end statement over showings that the grouping makes possible.
module RulePrograms {
  import opened Common
  import opened RuleModel
  import opened RuleJudge
  import opened RulePass

  // Which showing of a program leads: on a group first, then by score, ties to the lower listing id.
  predicate ShowingLe(a: Showing, b: Showing) {
    if a.group.Some? != b.group.Some? then a.group.Some?
    else if a.score != b.score then a.score > b.score
    else a.entry <= b.entry
  }

  function LeadStart(p: Program): int { if p.showings == [] then 0 else p.showings[0].start }
  function LeadEntry(p: Program): int { if p.showings == [] then 0 else p.showings[0].entry }

  predicate ProgramLe(a: Program, b: Program) {
    if LeadStart(a) != LeadStart(b) then LeadStart(a) < LeadStart(b)
    else if a.identity.title != b.identity.title then TextLe(a.identity.title, b.identity.title)
    else if a.identity.episode != b.identity.episode then TextLe(a.identity.episode, b.identity.episode)
    else LeadEntry(a) <= LeadEntry(b)
  }

  lemma ShowingLePreorder()
    ensures TotalPreorder(ShowingLe)
  {
  }

  lemma ProgramLePreorder()
    ensures TotalPreorder(ProgramLe)
  {
    forall a, b ensures ProgramLe(a, b) || ProgramLe(b, a) {
      TextLeTotal(a.identity.title, b.identity.title);
      TextLeTotal(a.identity.episode, b.identity.episode);
    }
    forall a, b, c | ProgramLe(a, b) && ProgramLe(b, c) ensures ProgramLe(a, c) {
      ProgramLeChain(a, b, c);
    }
  }

  lemma ProgramLeChain(a: Program, b: Program, c: Program)
    requires ProgramLe(a, b) && ProgramLe(b, c)
    ensures ProgramLe(a, c)
  {
    if LeadStart(a) == LeadStart(b) == LeadStart(c) {
      var x, y, z := a.identity.title, b.identity.title, c.identity.title;
      if x != y && y != z {
        TextLeTransitive(x, y, z);
        if x == z { TextLeAntisymmetric(x, y); }
      } else if x == y == z {
        var u, v, w := a.identity.episode, b.identity.episode, c.identity.episode;
        if u != v && v != w {
          TextLeTransitive(u, v, w);
          if u == w { TextLeAntisymmetric(u, v); }
        }
      }
    }
  }

  ghost function IdentityOfShowing(eps: SlotMap, s: Showing): Identity {
    IdentityOf(eps, s.title, s.start, s.episode)
  }

  ghost function Identities(eps: SlotMap, showings: seq<Showing>): seq<Identity> {
    if showings == [] then []
    else
      var front := Identities(eps, showings[..|showings| - 1]);
      var i := IdentityOfShowing(eps, showings[|showings| - 1]);
      if i in front then front else front + [i]
  }

  ghost function Group(eps: SlotMap, showings: seq<Showing>, i: Identity): seq<Showing> {
    if showings == [] then []
    else
      var front := Group(eps, showings[..|showings| - 1], i);
      var s := showings[|showings| - 1];
      if IdentityOfShowing(eps, s) == i then front + [s] else front
  }

  ghost function ProgramFor(eps: SlotMap, showings: seq<Showing>, i: Identity): Program {
    Program(i, Sort(ShowingLe, Group(eps, showings, i)))
  }

  ghost function ProgramsFor(eps: SlotMap, showings: seq<Showing>, ids: seq<Identity>): (ps: seq<Program>)
    ensures |ps| == |ids| && forall k :: 0 <= k < |ids| ==> ps[k] == ProgramFor(eps, showings, ids[k])
  {
    if ids == [] then [] else ProgramsFor(eps, showings, ids[..|ids| - 1]) + [ProgramFor(eps, showings, ids[|ids| - 1])]
  }

  ghost function ProgramsOf(eps: SlotMap, showings: seq<Showing>): seq<Program> {
    Sort(ProgramLe, ProgramsFor(eps, showings, Identities(eps, showings)))
  }

  lemma {:induction false} GroupMembers(eps: SlotMap, showings: seq<Showing>, i: Identity)
    ensures forall s :: s in Group(eps, showings, i) <==> s in showings && IdentityOfShowing(eps, s) == i
  {
    if showings != [] {
      GroupMembers(eps, showings[..|showings| - 1], i);
      assert showings == showings[..|showings| - 1] + [showings[|showings| - 1]];
    }
  }

  lemma {:induction false} IdentitiesExact(eps: SlotMap, showings: seq<Showing>)
    ensures forall s :: s in showings ==> IdentityOfShowing(eps, s) in Identities(eps, showings)
    ensures forall i :: i in Identities(eps, showings) ==> exists s :: s in showings && IdentityOfShowing(eps, s) == i
    ensures forall j, k :: 0 <= j < k < |Identities(eps, showings)| ==> Identities(eps, showings)[j] != Identities(eps, showings)[k]
  {
    if showings != [] {
      var front, last := showings[..|showings| - 1], showings[|showings| - 1];
      IdentitiesExact(eps, front);
      assert showings == front + [last];
      forall i | i in Identities(eps, showings) ensures exists s :: s in showings && IdentityOfShowing(eps, s) == i {
        if i in Identities(eps, front) {
          var s :| s in front && IdentityOfShowing(eps, s) == i;
          assert s in showings;
        } else {
          assert last in showings && IdentityOfShowing(eps, last) == i;
        }
      }
    }
  }

  // A program holds exactly the showings of its identity, the best of them first.
  ghost predicate ExactProgram(eps: SlotMap, showings: seq<Showing>, p: Program) {
    && ValidProgram(p) && FromShowings(eps, showings, p) && LeadStart(p) == p.identity.start
    && IdentityOf(eps, p.identity.title, p.identity.start, p.identity.episode) == p.identity
    && (forall s :: s in p.showings <==> s in showings && IdentityOfShowing(eps, s) == p.identity)
    && (forall s :: s in p.showings ==> ShowingLe(p.showings[0], s))
  }

  lemma ProgramForExact(eps: SlotMap, showings: seq<Showing>, i: Identity)
    requires exists s :: s in showings && IdentityOfShowing(eps, s) == i
    ensures ExactProgram(eps, showings, ProgramFor(eps, showings, i))
  {
    var g := Group(eps, showings, i);
    GroupMembers(eps, showings, i);
    var p := ProgramFor(eps, showings, i);
    SameElements(p.showings, g);
    ShowingLePreorder();
    SortSorted(ShowingLe, g);
    assert p.showings[0] in p.showings;
    forall s | s in p.showings ensures ShowingLe(p.showings[0], s) {
      var k :| 0 <= k < |p.showings| && p.showings[k] == s;
    }
  }

  lemma {:induction false} OneOfEach(a: seq<Program>, p: Program)
    requires forall j, k :: 0 <= j < k < |a| ==> a[j].identity != a[k].identity
    ensures multiset(a)[p] <= 1
  {
    if a != [] {
      OneOfEach(a[1..], p);
      assert a == [a[0]] + a[1..];
      if a[0] == p { assert p !in multiset(a[1..]); }
    }
  }

  ghost predicate Distinct(ps: seq<Program>) {
    forall j, k :: 0 <= j < k < |ps| ==> ps[j].identity != ps[k].identity
  }

  lemma SortKeepsDistinct(a: seq<Program>, b: seq<Program>)
    requires multiset(a) == multiset(b) && Distinct(a)
    ensures Distinct(b)
  {
    SameElements(a, b);
    forall j, k | 0 <= j < k < |b| ensures b[j].identity != b[k].identity {
      OneOfEach(a, b[j]);
      OncePerPosition(b, j, k);
      assert b[j] in a && b[k] in a;
    }
  }

  lemma UnsortedDistinct(eps: SlotMap, showings: seq<Showing>)
    ensures Distinct(ProgramsFor(eps, showings, Identities(eps, showings)))
  {
    IdentitiesExact(eps, showings);
  }

  lemma SortedByStart(ps: seq<Program>, j: nat, k: nat)
    requires j < k < |ps|
    ensures LeadStart(Sort(ProgramLe, ps)[j]) <= LeadStart(Sort(ProgramLe, ps)[k])
  {
    ProgramLePreorder();
    SortSorted(ProgramLe, ps);
    assert ProgramLe(Sort(ProgramLe, ps)[j], Sort(ProgramLe, ps)[k]);
  }

  lemma ProgramMember(eps: SlotMap, showings: seq<Showing>, p: Program)
    requires p in ProgramsOf(eps, showings)
    ensures ExactProgram(eps, showings, p)
  {
    var ids := Identities(eps, showings);
    var unsorted := ProgramsFor(eps, showings, ids);
    SameElements(unsorted, ProgramsOf(eps, showings));
    var k :| 0 <= k < |unsorted| && unsorted[k] == p;
    assert ids[k] in ids;
    IdentitiesExact(eps, showings);
    ProgramForExact(eps, showings, ids[k]);
  }

  lemma ProgramsDistinct(eps: SlotMap, showings: seq<Showing>)
    ensures Distinct(ProgramsOf(eps, showings))
  {
    UnsortedDistinct(eps, showings);
    SortKeepsDistinct(ProgramsFor(eps, showings, Identities(eps, showings)), ProgramsOf(eps, showings));
  }

  lemma ProgramsOrdered(eps: SlotMap, showings: seq<Showing>, j: nat, k: nat)
    requires j < k < |ProgramsOf(eps, showings)|
    ensures ProgramsOf(eps, showings)[j].identity.start <= ProgramsOf(eps, showings)[k].identity.start
  {
    SortedByStart(ProgramsFor(eps, showings, Identities(eps, showings)), j, k);
    ProgramMember(eps, showings, ProgramsOf(eps, showings)[j]);
    ProgramMember(eps, showings, ProgramsOf(eps, showings)[k]);
  }

  // The grouping meets everything a pass needs: distinct programs in start order, each with the
  // identity its slot gives it and led by a showing the search returned.
  lemma ProgramsExact(eps: SlotMap, showings: seq<Showing>)
    ensures var ps := ProgramsOf(eps, showings);
      && ValidPrograms(ps) && StableIdentities(eps, ps)
      && (forall j :: 0 <= j < |ps| ==> ps[j].showings != [] && FromShowings(eps, showings, ps[j]))
  {
    var ps := ProgramsOf(eps, showings);
    ProgramsDistinct(eps, showings);
    forall j | 0 <= j < |ps|
      ensures ValidProgram(ps[j]) && FromShowings(eps, showings, ps[j])
      ensures IdentityOf(eps, ps[j].identity.title, ps[j].identity.start, ps[j].identity.episode) == ps[j].identity
    {
      ProgramMember(eps, showings, ps[j]);
    }
    forall j, k | 0 <= j < k < |ps|
      ensures ps[j].identity.start <= ps[k].identity.start
    {
      ProgramsOrdered(eps, showings, j, k);
    }
  }

  lemma ListedProgram(eps: SlotMap, showings: seq<Showing>, i: Identity)
    requires i in Identities(eps, showings)
    ensures ProgramFor(eps, showings, i) in ProgramsOf(eps, showings)
  {
    var unsorted := ProgramsFor(eps, showings, Identities(eps, showings));
    SameElements(unsorted, ProgramsOf(eps, showings));
    var k :| 0 <= k < |Identities(eps, showings)| && Identities(eps, showings)[k] == i;
    assert unsorted[k] in unsorted;
  }

  // Every showing is in one program, which its best showing leads, and in no second one.
  lemma EveryShowingInAProgram(eps: SlotMap, showings: seq<Showing>, s: Showing)
    requires s in showings
    ensures exists p :: p in ProgramsOf(eps, showings) && s in p.showings && ShowingLe(p.showings[0], s)
  {
    var i := IdentityOfShowing(eps, s);
    IdentitiesExact(eps, showings);
    ListedProgram(eps, showings, i);
    ProgramForExact(eps, showings, i);
    var p := ProgramFor(eps, showings, i);
    assert s in p.showings && ShowingLe(p.showings[0], s);
  }

  lemma NoShowingInTwoPrograms(eps: SlotMap, showings: seq<Showing>, s: Showing, j: nat, k: nat)
    requires j < k < |ProgramsOf(eps, showings)| && s in ProgramsOf(eps, showings)[j].showings
    ensures s !in ProgramsOf(eps, showings)[k].showings
  {
    ProgramsDistinct(eps, showings);
    ProgramMember(eps, showings, ProgramsOf(eps, showings)[j]);
    ProgramMember(eps, showings, ProgramsOf(eps, showings)[k]);
  }

  lemma {:induction false} UnseenGroupEmpty(eps: SlotMap, showings: seq<Showing>, i: Identity)
    requires i !in Identities(eps, showings)
    ensures Group(eps, showings, i) == []
  {
    if showings != [] { UnseenGroupEmpty(eps, showings[..|showings| - 1], i); }
  }

  lemma NextShowing(eps: SlotMap, showings: seq<Showing>, n: nat)
    requires n < |showings|
    ensures var i := IdentityOfShowing(eps, showings[n]);
      && Identities(eps, showings[..n + 1]) ==
         (if i in Identities(eps, showings[..n]) then Identities(eps, showings[..n]) else Identities(eps, showings[..n]) + [i])
      && (forall k :: Group(eps, showings[..n + 1], k) == Group(eps, showings[..n], k) + (if k == i then [showings[n]] else []))
      && (i !in Identities(eps, showings[..n]) ==> Group(eps, showings[..n], i) == [])
  {
    assert showings[..n + 1][..n] == showings[..n];
    var i := IdentityOfShowing(eps, showings[n]);
    if i !in Identities(eps, showings[..n]) { UnseenGroupEmpty(eps, showings[..n], i); }
  }

  method CollectGroups(showings: seq<Showing>, slots: Slots) returns (byIdentity: map<Identity, seq<Showing>>, order: seq<Identity>)
    ensures order == Identities(slots.eps, showings)
    ensures forall i :: i in order ==> i in byIdentity && byIdentity[i] == Group(slots.eps, showings, i)
  {
    byIdentity, order := map[], [];   // `order` is the dict's insertion order
    for n := 0 to |showings|
      invariant order == Identities(slots.eps, showings[..n])
      invariant forall i :: i in byIdentity <==> i in order
      invariant forall i :: i in order ==> byIdentity[i] == Group(slots.eps, showings[..n], i)
    {
      NextShowing(slots.eps, showings, n);
      var s := showings[n];
      var i := slots.GetIdentity(s.title, s.start, s.episode);
      if i !in byIdentity {
        order := order + [i];
        byIdentity := byIdentity[i := [s]];
      } else {
        byIdentity := byIdentity[i := byIdentity[i] + [s]];
      }
    }
    assert showings[..|showings|] == showings;
  }

  lemma ProgramsForNext(eps: SlotMap, showings: seq<Showing>, order: seq<Identity>, n: nat)
    requires n < |order|
    ensures ProgramsFor(eps, showings, order[..n + 1])
      == ProgramsFor(eps, showings, order[..n]) + [Program(order[n], Sort(ShowingLe, Group(eps, showings, order[n])))]
  {
    assert order[..n + 1][..n] == order[..n];
  }

  method GroupPrograms(showings: seq<Showing>, slots: Slots) returns (programs: seq<Program>)
    ensures programs == ProgramsOf(slots.eps, showings)
  {
    var byIdentity, order := CollectGroups(showings, slots);
    var unsorted: seq<Program> := [];
    for n := 0 to |order|
      invariant unsorted == ProgramsFor(slots.eps, showings, order[..n])
    {
      ProgramsForNext(slots.eps, showings, order, n);
      unsorted := unsorted + [Program(order[n], Sort(ShowingLe, byIdentity[order[n]]))];
    }
    assert order[..|order|] == order;
    programs := Sort(ProgramLe, unsorted);
  }

  // ---- over showings, with the slots read afresh each time ----------------------------------

  lemma SlotsDetermined(a: SlotMap, b: SlotMap, showings: seq<Showing>, st: State)
    requires SlotsOf(a, showings, st) && SlotsOf(b, showings, st)
    ensures a == b
  {
    forall t, s, e ensures InSlot(a, t, s, e) <==> InSlot(b, t, s, e) {
      assert InSlot(a, t, s, e) <==> ListsEpisode(showings, st, t, s, e);
    }
    SlotsIncluded(a, b);
    SlotsIncluded(b, a);
    forall k | k in a ensures k in b && a[k] == b[k] {
      assert forall e :: e in a[k] <==> e in b[k];
    }
  }

  lemma SlotsIncluded(a: SlotMap, b: SlotMap)
    requires ValidSlots(a) && forall t, s, e :: InSlot(a, t, s, e) ==> InSlot(b, t, s, e)
    ensures forall k :: k in a ==> k in b && a[k] <= b[k]
  {
    forall k | k in a ensures k in b && a[k] <= b[k] {
      var e :| e in a[k];
      assert InSlot(a, k.0, k.1, e);
      forall e | e in a[k] ensures k in b && e in b[k] {
        assert InSlot(a, k.0, k.1, e);
      }
    }
  }

  // The recording stands in the ledger under the program of the pass it was made for.
  ghost predicate MadeFor(rec: Lib, rows: Rows, p: Program) {
    && rec.title == p.identity.title && rec.episode == p.identity.episode && rec.programStart == Some(p.identity.start)
    && p.identity in rows
  }

  // Every recording a pass made is of one of its programs; the others are as they were.
  ghost predicate MadeByPass(st: State, done: State, ps: seq<Program>) {
    && (forall k :: k in st.rows ==> k in done.rows)
    && (forall id :: id in st.recs ==> id in done.recs && done.recs[id] == st.recs[id])
    && (forall id :: id in done.recs && id !in st.recs ==> exists p :: p in ps && MadeFor(done.recs[id], done.rows, p))
  }

  lemma MadeNext(env: Env, st: State, before: State, ps: seq<Program>)
    requires ps != [] && ps[|ps| - 1].showings != [] && ValidState(before) && MadeByPass(st, before, ps[..|ps| - 1])
    ensures MadeByPass(st, Step(env, before, ps[|ps| - 1]), ps)
  {
    var last, after := ps[|ps| - 1], Step(env, before, ps[|ps| - 1]);
    assert last in ps;
    forall id | id in after.recs && id !in st.recs ensures exists p :: p in ps && MadeFor(after.recs[id], after.rows, p) {
      if id in before.recs {
        var p :| p in ps[..|ps| - 1] && MadeFor(before.recs[id], before.rows, p);
        assert p in ps && MadeFor(after.recs[id], after.rows, p);
      } else {
        assert MadeFor(after.recs[id], after.rows, last);
      }
    }
  }

  lemma {:induction false} PassMakes(env: Env, st: State, ps: seq<Program>)
    requires ValidState(st) && ValidEnv(env, st) && forall i :: 0 <= i < |ps| ==> ps[i].showings != []
    ensures MadeByPass(st, Pass(env, st, ps), ps)
  {
    if ps != [] {
      PassValid(env, st, ps[..|ps| - 1]);
      PassMakes(env, st, ps[..|ps| - 1]);
      MadeNext(env, st, Pass(env, st, ps[..|ps| - 1]), ps);
    }
  }

  // What the next evaluation reads: the same ledger and library, but a recording the pass made
  // under its own listing's episode, which is empty when the slot supplied the program's.
  ghost predicate Reread(st: State, done: State, ps: seq<Program>, again: State) {
    && again.rows == done.rows && done.nextId <= again.nextId && again.recs.Keys == done.recs.Keys
    && (forall id :: id in st.recs && id in done.recs ==> again.recs[id] == done.recs[id])
    && (forall id, p :: id in done.recs && id !in st.recs && p in ps && p.showings != [] && MadeFor(done.recs[id], done.rows, p) ==>
          again.recs[id] == done.recs[id].(episode := p.showings[0].episode))
  }

  // Its slot gives such a recording back the identity it was made under.
  lemma RereadReadsBack(env: Env, showings: seq<Showing>, st: State, ps: seq<Program>, again: State)
    requires ValidState(st) && ValidEnv(env, st)
    requires forall i :: 0 <= i < |ps| ==> ps[i].showings != [] && FromShowings(env.eps, showings, ps[i])
    requires Reread(st, Pass(env, st, ps), ps, again)
    ensures ReadBack(env, Pass(env, st, ps), again)
  {
    var done := Pass(env, st, ps);
    PassMakes(env, st, ps);
    forall id | id in done.recs
      ensures again.recs[id].(episode := done.recs[id].episode) == done.recs[id]
      ensures Identified(done.recs[id]) ==> IdentityOfLib(env.eps, again.recs[id]) == IdentityOfLib(env.eps, done.recs[id])
    {
      if id !in st.recs {
        var p :| p in ps && MadeFor(done.recs[id], done.rows, p);
        var lead := p.showings[0];
        assert lead in p.showings;
        IdentityStable(env.eps, lead.title, lead.start, lead.episode);
      }
    }
  }

  // And it lists no other episodes: what a reread recording no longer says, its row still does.
  lemma RereadKeepsSlots(env: Env, showings: seq<Showing>, st: State, ps: seq<Program>, again: State)
    requires ValidState(st) && ValidEnv(env, st) && SlotsOf(env.eps, showings, st)
    requires forall i :: 0 <= i < |ps| ==> ps[i].showings != [] && FromShowings(env.eps, showings, ps[i])
    requires Reread(st, Pass(env, st, ps), ps, again)
    ensures SlotsOf(env.eps, showings, again)
  {
    var done := Pass(env, st, ps);
    PassMakes(env, st, ps);
    PassKeepsSlots(env, showings, st, ps);
    forall t, s, e ensures ListsEpisode(showings, again, t, s, e) <==> ListsEpisode(showings, done, t, s, e) {
      RereadListsTheSame(env.eps, showings, st, done, ps, again, t, s, e);
    }
  }

  ghost predicate RecListed(rec: Lib, t: string, s: int, e: string) { rec.title == t && rec.programStart == Some(s) && rec.episode == e }

  ghost predicate Led(eps: SlotMap, showings: seq<Showing>, ps: seq<Program>) {
    forall p :: p in ps ==> p.showings != [] && FromShowings(eps, showings, p)
  }

  lemma RereadStillListed(eps: SlotMap, showings: seq<Showing>, st: State, done: State, ps: seq<Program>, again: State, id: int, t: string, s: int, e: string)
    requires Led(eps, showings, ps) && MadeByPass(st, done, ps) && Reread(st, done, ps, again)
    requires t != "" && e != "" && id in done.recs && RecListed(done.recs[id], t, s, e)
    ensures ListsEpisode(showings, again, t, s, e)
  {
    if id in st.recs {
      assert again.recs[id] == done.recs[id];
    } else {
      var p :| p in ps && MadeFor(done.recs[id], done.rows, p);
      assert p.identity == Identity(t, e, s);
    }
  }

  lemma RereadWasListed(eps: SlotMap, showings: seq<Showing>, st: State, done: State, ps: seq<Program>, again: State, id: int, t: string, s: int, e: string)
    requires Led(eps, showings, ps) && MadeByPass(st, done, ps) && Reread(st, done, ps, again)
    requires t != "" && e != "" && id in again.recs && RecListed(again.recs[id], t, s, e)
    ensures RecListed(done.recs[id], t, s, e)
  {
    if id !in st.recs {
      var p :| p in ps && MadeFor(done.recs[id], done.rows, p);
      assert p.showings[0] in p.showings;
    }
  }

  lemma RereadListsTheSame(eps: SlotMap, showings: seq<Showing>, st: State, done: State, ps: seq<Program>, again: State, t: string, s: int, e: string)
    requires Led(eps, showings, ps) && MadeByPass(st, done, ps) && Reread(st, done, ps, again)
    ensures ListsEpisode(showings, again, t, s, e) <==> ListsEpisode(showings, done, t, s, e)
  {
    if t != "" && e != "" {
      if id :| id in done.recs && RecListed(done.recs[id], t, s, e) { RereadStillListed(eps, showings, st, done, ps, again, id, t, s, e); }
      if id :| id in again.recs && RecListed(again.recs[id], t, s, e) { RereadWasListed(eps, showings, st, done, ps, again, id, t, s, e); }
    }
  }

  // Evaluate a rule, then evaluate it again on what the first evaluation left as the next one
  // reads it: same showings, slots read afresh from the grown ledger and library, each recording
  // under its own listing's episode. The second evaluation groups the same programs and records
  // none of them.
  lemma ReevaluationRecordsNothing(env: Env, showings: seq<Showing>, st: State, again: State, eps': SlotMap)
    requires ValidState(st) && ValidEnv(env, st) && SlotsOf(env.eps, showings, st)
    requires var ps := ProgramsIn(env.eps, showings); Reread(st, Pass(env, st, ps), ps, again)
    requires ValidState(again) && SlotsOf(eps', showings, again)
    ensures ProgramsIn(eps', showings) == ProgramsIn(env.eps, showings)
    ensures Pass(env.(eps := eps'), again, ProgramsIn(eps', showings)).recs == again.recs
  {
    var ps := ProgramsIn(env.eps, showings);
    RereadKeepsSlots(env, showings, st, ps, again);
    SlotsDetermined(env.eps, eps', showings, again);
    RereadReadsBack(env, showings, st, ps, again);
    EvaluationIsIdempotent(env, st, ps, again);
  }

  ghost function ProgramsIn(eps: SlotMap, showings: seq<Showing>): (ps: seq<Program>)
    ensures ps == ProgramsOf(eps, showings) && ValidPrograms(ps)
    ensures forall i :: 0 <= i < |ps| ==> ps[i].showings != [] && FromShowings(eps, showings, ps[i])
  {
    ProgramsExact(eps, showings);
    ProgramsOf(eps, showings)
  }
}

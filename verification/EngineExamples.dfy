/** Concrete runs: what goes wrong outside the conditions of the safety theorems. */
module EngineExamples {
  import opened Common
  import opened EmailTable
  import opened FolderPass
  import opened Engine
  import opened EngineSafety

  lemma {:induction false} ExecConcat(s: State, l1: seq<Label>, l2: seq<Label>)
    requires Legal(s, l1) && Legal(Exec(s, l1), l2)
    ensures Legal(s, l1 + l2) && Exec(s, l1 + l2) == Exec(Exec(s, l1), l2)
    decreases |l1|
  {
    if l1 == [] {
      assert l1 + l2 == l2;
    } else {
      assert (l1 + l2)[0] == l1[0] && (l1 + l2)[1..] == l1[1..] + l2;
      ExecConcat(Apply(s, l1[0]), l1[1..], l2);
    }
  }

  lemma ExecOne(s: State, l: Label)
    requires Enabled(s, l)
    ensures Legal(s, [l]) && Exec(s, [l]) == Apply(s, l)
  {}

  /** The run of `ls` followed by one more step. */
  lemma ExecSnoc(s: State, ls: seq<Label>, l: Label)
    requires Legal(s, ls) && Enabled(Exec(s, ls), l)
    ensures Legal(s, ls + [l]) && Exec(s, ls + [l]) == Apply(Exec(s, ls), l)
  {
    ExecOne(Exec(s, ls), l);
    ExecConcat(s, ls, [l]);
  }

  /** Task `t` takes folder `f` from SELECT to its map write, without a wipe. */
  lemma SelectAndWrite(s: State, a: int, t: int, f: string) returns (ls: seq<Label>)
    requires Owns(s, a, t) && s.tasks[t].pc.Between? && f !in s.tasks[t].done && (a, f) in s.servers
    requires a in s.accounts && !s.perFolderWrite
    requires f in s.tasks[t].snapshot ==> s.tasks[t].snapshot[f] == s.servers[(a, f)].validity
    ensures Legal(s, ls) && forall l :: l in ls ==> !l.action.Spawn?
    ensures var v := s.servers[(a, f)].validity;
      Exec(s, ls) == s.(nextId := s.nextId + 3, accounts := s.accounts[a := s.tasks[t].snapshot[f := v]],
                        tasks := s.tasks[t := s.tasks[t].(pc := Mapped(f, v))])
  {
    var v, task := s.servers[(a, f)].validity, s.tasks[t];
    ls := [Label(a, Move(t, Select(f)))];
    ExecOne(s, ls[0]);
    assert Exec(s, ls) == s.(nextId := s.nextId + 1, tasks := s.tasks[t := task.(pc := Selected(f, v))]);
    ExecSnoc(s, ls, Label(a, Move(t, Wipe)));
    ls := ls + [Label(a, Move(t, Wipe))];
    assert Exec(s, ls) == s.(nextId := s.nextId + 2, tasks := s.tasks[t := task.(pc := Cleared(f, v))]);
    ExecSnoc(s, ls, Label(a, Move(t, WriteMap)));
    ls := ls + [Label(a, Move(t, WriteMap))];
  }

  /** From there to the start of its fetch loop. */
  lemma SearchAndReadMax(s: State, a: int, t: int, f: string) returns (ls: seq<Label>)
    requires Owns(s, a, t) && s.tasks[t].pc.Mapped? && s.tasks[t].pc.folder == f && (a, f) in s.servers
    ensures Legal(s, ls) && forall l :: l in ls ==> !l.action.Spawn?
    ensures var uids, rows := s.servers[(a, f)].uids, Rows(s.emails, a, f);
      Exec(s, ls) == s.(nextId := s.nextId + 2, tasks := s.tasks[t := s.tasks[t].(pc :=
        Fetching(f, s.tasks[t].pc.validity, uids, Attempted(rows, uids), rows, map[]))])
  {
    var task, uids := s.tasks[t], s.servers[(a, f)].uids;
    ls := [Label(a, Move(t, Search))];
    ExecOne(s, ls[0]);
    assert Exec(s, ls) == s.(nextId := s.nextId + 1,
                             tasks := s.tasks[t := task.(pc := Searched(f, task.pc.validity, uids))]);
    ExecSnoc(s, ls, Label(a, Move(t, ReadMax)));
    ls := ls + [Label(a, Move(t, ReadMax))];
  }

  /** Task `t` takes folder `f` from SELECT to the start of its fetch loop. */
  lemma Prelude(s: State, a: int, t: int, f: string) returns (ls: seq<Label>)
    requires Owns(s, a, t) && s.tasks[t].pc.Between? && f !in s.tasks[t].done && (a, f) in s.servers
    requires a in s.accounts && !s.perFolderWrite
    requires f in s.tasks[t].snapshot ==> s.tasks[t].snapshot[f] == s.servers[(a, f)].validity
    ensures Legal(s, ls) && forall l :: l in ls ==> !l.action.Spawn?
    ensures var box := s.servers[(a, f)]; var rows := Rows(s.emails, a, f);
      Exec(s, ls) == s.(nextId := s.nextId + 5,
        accounts := s.accounts[a := s.tasks[t].snapshot[f := box.validity]],
        tasks := s.tasks[t := s.tasks[t].(pc :=
          Fetching(f, box.validity, box.uids, Attempted(rows, box.uids), rows, map[]))])
  {
    ls := SelectAndWrite(s, a, t, f);
    var more := SearchAndReadMax(Exec(s, ls), a, t, f);
    ExecConcat(s, ls, more);
    ls := ls + more;
  }

  /** One account, one mailbox holding message 1, and `max` permits. */
  function OneMessage(max: int): State {
    State(false, map[0 := map[]], map[], 0, map[], max, map[(0, "INBOX") := Server({1}, 2, 7)])
  }

  /** Task `t` is spawned and gets its permit. */
  lemma Start(s: State, a: int, t: int)
    requires a in s.accounts && t !in s.tasks && s.permits > 0
    ensures var ls := [Label(a, Spawn(t)), Label(a, Acquire(t))];
      && Legal(s, ls)
      && Exec(s, ls) == s.(tasks := s.tasks[t := Task(a, s.accounts[a], {}, Between)], permits := s.permits - 1)
  {
    var spawn := Label(a, Spawn(t));
    ExecOne(s, spawn);
    var s1 := Apply(s, spawn);
    assert s1.tasks[t := Task(a, s.accounts[a], {}, Between)] == s.tasks[t := Task(a, s.accounts[a], {}, Between)];
    ExecSnoc(s, [spawn], Label(a, Acquire(t)));
  }

  /** Task of account 0 about to fetch message 1 into an empty archive. */
  function AboutToFetch(): Task {
    Task(0, map[], {}, Fetching("INBOX", 7, {1}, {1}, {}, map[]))
  }

  /** Two tasks of the same account have both read MAX over the same, empty folder. */
  lemma BothAboutToFetch(max: nat) returns (ls: seq<Label>)
    requires max >= 2
    ensures Legal(OneMessage(max), ls)
    ensures var s := Exec(OneMessage(max), ls);
      s.emails == map[] && 0 in s.accounts && s.tasks == map[1 := AboutToFetch(), 2 := AboutToFetch()]
  {
    var s := OneMessage(max);
    ls := [Label(0, Spawn(1)), Label(0, Acquire(1))];
    Start(s, 0, 1);
    var more := [Label(0, Spawn(2)), Label(0, Acquire(2))];
    Start(Exec(s, ls), 0, 2);
    ExecConcat(s, ls, more);
    ls := ls + more;
    more := Prelude(Exec(s, ls), 0, 1, "INBOX");
    ExecConcat(s, ls, more);
    ls := ls + more;
    more := Prelude(Exec(s, ls), 0, 2, "INBOX");
    ExecConcat(s, ls, more);
    ls := ls + more;
    assert Attempted({}, {1}) == {1} && Rows(map[], 0, "INBOX") == {};
  }

  /** With two or more permits two ticks can store the same message twice. */
  lemma OverlapStoresTwice(max: nat) returns (ls: seq<Label>)
    requires max >= 2
    ensures Initial(OneMessage(max), max) && Legal(OneMessage(max), ls)
    ensures !UniqueKeys(Exec(OneMessage(max), ls).emails)
  {
    var s := OneMessage(max);
    ls := BothAboutToFetch(max);
    var s1 := Exec(s, ls);
    var store := Fetch(1, Stored(None));
    var e := Email(0, "INBOX", 1, None, 7);
    ExecSnoc(s, ls, Label(0, Move(1, store)));
    ls := ls + [Label(0, Move(1, store))];
    var s2 := Exec(s, ls);
    assert s2.emails == map[s1.nextId := e] && s2.nextId == s1.nextId + 1;
    assert s2.tasks[2] == AboutToFetch();
    ExecSnoc(s, ls, Label(0, Move(2, store)));
    ls := ls + [Label(0, Move(2, store))];
    var t := Exec(s, ls).emails;
    assert t == map[s1.nextId := e, s2.nextId := e];
    assert SameKey(t[s1.nextId], t[s2.nextId]);
    assert !UniqueFor(t, 0);
  }

  /** max_parallelism is safe for the (account, folder, uid) key exactly when it is at most 1. */
  lemma SafeParallelism(max: nat)
    ensures max <= 1 <==>
      forall s, ls :: Initial(s, max) && Legal(s, ls) ==> UniqueKeys(Exec(s, ls).emails)
  {
    if max <= 1 {
      forall s, ls | Initial(s, max) && Legal(s, ls) ensures UniqueKeys(Exec(s, ls).emails) {
        forall a ensures UniqueFor(Exec(s, ls).emails, a) {
          InitialUnique(s, max, a);
          OnePermitExcludes(s, ls, a);
          NeverStoredTwice(s, ls, a);
        }
      }
    } else {
      var ls := OverlapStoresTwice(max);
    }
  }

  // ----- grace deletion of a row that has not expired -------------------------------------

  ghost predicate Steps(s1: State, l: Label, s2: State) { Enabled(s1, l) && Apply(s1, l) == s2 }

  /** The run `ls` from `s`, followed by one more step. */
  lemma OneMore(s: State, ls: seq<Label>, s1: State, l: Label, s2: State) returns (all: seq<Label>)
    requires Legal(s, ls) && Exec(s, ls) == s1 && Steps(s1, l, s2)
    ensures Legal(s, all) && Exec(s, all) == s2
  {
    ExecSnoc(s, ls, l);
    all := ls + [l];
  }

  lemma FetchSteps(s: State, t: int, u: int, r: int, e: Email, s2: State)
    requires Owns(s, 0, t) && s.tasks[t].pc.Fetching? && u in s.tasks[t].pc.todo && 0 in s.accounts
    requires e == Email(0, s.tasks[t].pc.folder, u, Some(r), s.tasks[t].pc.validity)
    requires var task := s.tasks[t]; var pc := task.pc;
      s2 == s.(emails := s.emails[s.nextId := e], nextId := s.nextId + 1, tasks := s.tasks[t := task.(pc :=
        Fetching(pc.folder, pc.validity, pc.server, pc.todo - {u}, pc.before, pc.got[u := Some(r)]))])
    ensures Steps(s, Label(0, Move(t, Fetch(u, Stored(Some(r))))), s2)
  {}

  lemma AbortSteps(s: State, t: int)
    requires Owns(s, 0, t) && s.tasks[t].pc.Fetching? && s.tasks[t].pc.todo == {}
    ensures var task := s.tasks[t];
      Steps(s, Label(0, Move(t, Abort)), s.(nextId := s.nextId + 1,
        tasks := s.tasks[t := task.(pc := Between, done := task.done + {task.pc.folder})]))
  {}

  lemma FinishSteps(s: State, t: int)
    requires Owns(s, 0, t) && s.tasks[t].pc.Between?
    ensures Steps(s, Label(0, Finish(t)), s.(tasks := s.tasks - {t}, permits := s.permits + 1))
  {}

  lemma ExpungeSteps(s: State, f: string, u: int)
    requires (0, f) in s.servers
    ensures var box := s.servers[(0, f)];
      Steps(s, Label(0, Expunge(f, u)), s.(servers := s.servers[(0, f) := box.(uids := box.uids - {u})]))
  {}

  lemma ResetSteps(s: State, f: string, n: Server)
    requires (0, f) in s.servers && n.validity > s.servers[(0, f)].validity && forall u :: u in n.uids ==> u < n.next
    ensures Steps(s, Label(0, Reset(f, n)), s.(servers := s.servers[(0, f) := n]))
  {}

  lemma QuerySteps(s: State, t: int, cutoff: Option<int>, expired: set<int>)
    requires Owns(s, 0, t) && s.tasks[t].pc.Fetching? && s.tasks[t].pc.todo == {}
    requires expired == ExpiredUids(Rows(s.emails, 0, s.tasks[t].pc.folder), cutoff)
    ensures var task := s.tasks[t]; var pc := task.pc;
      Steps(s, Label(0, Move(t, Query(cutoff))), s.(nextId := s.nextId + 1, tasks := s.tasks[t := task.(pc :=
        Deleting(pc.folder, pc.validity, pc.server, expired, pc.before, pc.got, cutoff))]))
  {}

  function Fetching7(): Task { Task(0, map[], {}, Fetching("INBOX", 7, {1}, {1}, {}, map[])) }
  function Fetching8(): Task { Task(0, map[], {}, Fetching("INBOX", 8, {1}, {1}, {}, map[])) }

  const OLD := Email(0, "INBOX", 1, Some(10), 7)
  const NEW := Email(0, "INBOX", 1, Some(100), 8)

  /** Two tasks of one account, and a reset of the mailbox between their searches: both are about
      to fetch UID 1, which is not the same message. */
  function AcrossReset(max: int): State {
    State(false, map[0 := map["INBOX" := 8]], map[], 10, map[1 := Fetching7(), 2 := Fetching8()], max - 2,
          map[(0, "INBOX") := Server({1}, 2, 8)])
  }

  /** Both have stored their message and are through, and the mailbox has been emptied. */
  function TwoDates(max: int): State {
    State(false, map[0 := map["INBOX" := 8]], map[10 := OLD, 11 := NEW], 14, map[], max,
          map[(0, "INBOX") := Server({}, 2, 8)])
  }

  /** A later pass has found UID 1 expired and no longer listed. */
  function AboutToDelete(max: int): State {
    State(false, map[0 := map["INBOX" := 8]], map[10 := OLD, 11 := NEW], 20,
          map[3 := Task(0, map["INBOX" := 8], {}, Deleting("INBOX", 8, {}, {1}, {OLD, NEW}, map[], Some(50)))],
          max - 1, map[(0, "INBOX") := Server({}, 2, 8)])
  }

  /** The first task is about to fetch; the second has its permit. */
  function FirstSearched(max: int): State {
    State(false, map[0 := map["INBOX" := 7]], map[], 5,
          map[1 := Fetching7(), 2 := Task(0, map[], {}, Between)], max - 2, map[(0, "INBOX") := Server({1}, 2, 7)])
  }

  lemma ReachFirstSearched(max: nat) returns (ls: seq<Label>)
    requires max >= 2
    ensures Legal(OneMessage(max), ls) && Exec(OneMessage(max), ls) == FirstSearched(max)
  {
    var s := OneMessage(max);
    assert Attempted({}, {1}) == {1} && Rows(map[], 0, "INBOX") == {};
    ls := [Label(0, Spawn(1)), Label(0, Acquire(1))];
    Start(s, 0, 1);
    var more := [Label(0, Spawn(2)), Label(0, Acquire(2))];
    Start(Exec(s, ls), 0, 2);
    ExecConcat(s, ls, more);
    ls := ls + more;
    more := Prelude(Exec(s, ls), 0, 1, "INBOX");
    ExecConcat(s, ls, more);
    ls := ls + more;
    assert Exec(s, ls).tasks == FirstSearched(max).tasks;
  }

  lemma ReachReset(max: nat) returns (ls: seq<Label>)
    requires max >= 2
    ensures Legal(OneMessage(max), ls)
    ensures Exec(OneMessage(max), ls) == FirstSearched(max).(servers := AcrossReset(max).servers)
  {
    var box := Server({1}, 2, 8);
    ls := ReachFirstSearched(max);
    ResetSteps(FirstSearched(max), "INBOX", box);
    ls := OneMore(OneMessage(max), ls, FirstSearched(max), Label(0, Reset("INBOX", box)),
                  FirstSearched(max).(servers := AcrossReset(max).servers));
  }

  lemma SecondSearches(max: nat, s: State) returns (ls: seq<Label>)
    requires s == FirstSearched(max).(servers := AcrossReset(max).servers)
    ensures Legal(s, ls) && Exec(s, ls) == AcrossReset(max)
  {
    assert Attempted({}, {1}) == {1} && Rows(map[], 0, "INBOX") == {};
    ls := Prelude(s, 0, 2, "INBOX");
    assert Exec(s, ls).tasks == AcrossReset(max).tasks;
  }

  lemma ReachAcrossReset(max: nat) returns (ls: seq<Label>)
    requires max >= 2
    ensures Legal(OneMessage(max), ls) && Exec(OneMessage(max), ls) == AcrossReset(max)
  {
    ls := ReachReset(max);
    var more := SecondSearches(max, Exec(OneMessage(max), ls));
    ExecConcat(OneMessage(max), ls, more);
    ls := ls + more;
  }

  /** Both messages are stored. */
  function BothStored(max: int): State {
    AcrossReset(max).(emails := map[10 := OLD, 11 := NEW], nextId := 12, tasks := map[
      1 := Task(0, map[], {}, Fetching("INBOX", 7, {1}, {}, {}, map[1 := Some(10)])),
      2 := Task(0, map[], {}, Fetching("INBOX", 8, {1}, {}, {}, map[1 := Some(100)]))])
  }

  lemma ReachBothStored(max: nat) returns (ls: seq<Label>)
    ensures Legal(AcrossReset(max), ls) && Exec(AcrossReset(max), ls) == BothStored(max)
  {
    var s := AcrossReset(max);
    var s1 := s.(emails := map[10 := OLD], nextId := 11,
                 tasks := BothStored(max).tasks[2 := Fetching8()]);
    assert {1} - {1} == {};
    FetchSteps(s, 1, 1, 10, OLD, s1);
    ls := OneMore(s, [], s, Label(0, Move(1, Fetch(1, Stored(Some(10))))), s1);
    FetchSteps(s1, 2, 1, 100, NEW, BothStored(max));
    ls := OneMore(s, ls, s1, Label(0, Move(2, Fetch(1, Stored(Some(100))))), BothStored(max));
  }

  function Through(): Task { Task(0, map[], {"INBOX"}, Between) }

  lemma ReachThrough(max: nat) returns (ls: seq<Label>)
    ensures Legal(BothStored(max), ls)
    ensures Exec(BothStored(max), ls) == BothStored(max).(nextId := 14, tasks := map[1 := Through(), 2 := Through()])
  {
    var s := BothStored(max);
    assert {} + {"INBOX"} == {"INBOX"};
    AbortSteps(s, 1);
    var s1 := s.(nextId := 13, tasks := s.tasks[1 := Through()]);
    ls := OneMore(s, [], s, Label(0, Move(1, Abort)), s1);
    AbortSteps(s1, 2);
    var s2 := s1.(nextId := 14, tasks := map[1 := Through(), 2 := Through()]);
    ls := OneMore(s, ls, s1, Label(0, Move(2, Abort)), s2);
  }

  lemma ReachFinished(max: nat, s: State) returns (ls: seq<Label>)
    requires s == BothStored(max).(nextId := 14, tasks := map[1 := Through(), 2 := Through()])
    ensures Legal(s, ls) && Exec(s, ls) == TwoDates(max).(servers := s.servers)
  {
    FinishSteps(s, 1);
    var s1 := s.(tasks := map[2 := Through()], permits := s.permits + 1);
    assert s.tasks - {1} == s1.tasks && s1.tasks - {2} == map[];
    ls := OneMore(s, [], s, Label(0, Finish(1)), s1);
    FinishSteps(s1, 2);
    ls := OneMore(s, ls, s1, Label(0, Finish(2)), TwoDates(max).(servers := s.servers));
  }

  lemma ReachEmptied(max: nat, s: State) returns (ls: seq<Label>)
    requires s == BothStored(max).(nextId := 14, tasks := map[1 := Through(), 2 := Through()])
    ensures Legal(s, ls) && Exec(s, ls) == TwoDates(max)
  {
    ls := ReachFinished(max, s);
    var s1 := TwoDates(max).(servers := s.servers);
    ExpungeSteps(s1, "INBOX", 1);
    assert {1} - {1} == {};
    ls := OneMore(s, ls, s1, Label(0, Expunge("INBOX", 1)), TwoDates(max));
  }

  lemma ReachTwoDates(max: nat) returns (ls: seq<Label>)
    ensures Legal(AcrossReset(max), ls) && Exec(AcrossReset(max), ls) == TwoDates(max)
  {
    ls := ReachBothStored(max);
    var more := ReachThrough(max);
    ExecConcat(AcrossReset(max), ls, more);
    ls := ls + more;
    more := ReachEmptied(max, Exec(AcrossReset(max), ls));
    ExecConcat(AcrossReset(max), ls, more);
    ls := ls + more;
  }

  /** The later pass has read MAX and has nothing to fetch. */
  function ThirdSearched(max: int): State {
    TwoDates(max).(nextId := 19, permits := max - 1,
      tasks := map[3 := Task(0, map["INBOX" := 8], {}, Fetching("INBOX", 8, {}, {}, {OLD, NEW}, map[]))])
  }

  lemma ThirdSearches(max: nat, s: State) returns (ls: seq<Label>)
    requires s == TwoDates(max).(permits := max - 1, tasks := map[3 := Task(0, map["INBOX" := 8], {}, Between)])
    ensures Legal(s, ls) && Exec(s, ls) == ThirdSearched(max)
  {
    TwoDatesRows(s.emails);
    ls := Prelude(s, 0, 3, "INBOX");
    assert map["INBOX" := 8]["INBOX" := 8] == map["INBOX" := 8];
    assert Exec(s, ls).tasks == ThirdSearched(max).tasks && Exec(s, ls).accounts == s.accounts;
  }

  lemma ReachThirdSearched(max: nat) returns (ls: seq<Label>)
    requires max >= 2
    ensures Legal(TwoDates(max), ls) && Exec(TwoDates(max), ls) == ThirdSearched(max)
  {
    ls := [Label(0, Spawn(3)), Label(0, Acquire(3))];
    Start(TwoDates(max), 0, 3);
    var more := ThirdSearches(max, Exec(TwoDates(max), ls));
    ExecConcat(TwoDates(max), ls, more);
    ls := ls + more;
  }

  lemma ReachDelete(max: nat) returns (ls: seq<Label>)
    requires max >= 2
    ensures Legal(TwoDates(max), ls) && Exec(TwoDates(max), ls) == AboutToDelete(max)
  {
    ls := ReachThirdSearched(max);
    TwoDatesRows(ThirdSearched(max).emails);
    QuerySteps(ThirdSearched(max), 3, Some(50), {1});
    ls := OneMore(TwoDates(max), ls, ThirdSearched(max), Label(0, Move(3, Query(Some(50)))), AboutToDelete(max));
  }

  lemma TwoDatesRows(t: Table)
    requires t == map[10 := OLD, 11 := NEW]
    ensures Rows(t, 0, "INBOX") == {OLD, NEW} && Attempted({OLD, NEW}, {}) == {}
    ensures ExpiredUids({OLD, NEW}, Some(50)) == {1}
  {
    assert t[10] == OLD && t[11] == NEW;
    assert OLD in {OLD, NEW} && Expired(OLD, Some(50));
  }

  /** With two or more permits the grace loop can delete a row that has not expired: two
      overlapping tasks stored UID 1 on either side of a reset, and deletion goes by UID. */
  lemma GraceDeletesUnexpired(max: nat) returns (ls: seq<Label>)
    requires max >= 2
    ensures Initial(OneMessage(max), max) && Legal(OneMessage(max), ls)
    ensures var s := Exec(OneMessage(max), ls); var l := Label(0, Move(3, Delete(1)));
      && Enabled(s, l) && s.tasks[3].pc.cutoff == Some(50)
      && NEW in Rows(s.emails, 0, "INBOX") && !Expired(NEW, Some(50))
      && NEW !in Rows(Apply(s, l).emails, 0, "INBOX")
  {
    var s := OneMessage(max);
    ls := ReachAcrossReset(max);
    var more := ReachTwoDates(max);
    ExecConcat(s, ls, more);
    ls := ls + more;
    more := ReachDelete(max);
    ExecConcat(s, ls, more);
    ls := ls + more;
    TwoDatesRows(AboutToDelete(max).emails);
  }
}

/** The life of `rules.toml` under the daemon and `filewallctl`.  Each step loads the
file, changes what it loaded, and saves it, all at once.  The daemon in fact
changes what it holds in memory, which comes to the same as long as that is what
it last loaded or saved and nobody else has saved in between. */
module RuleHistory {
  import opened Wrappers
  import opened Rules

  // ---- Loading -------------------------------------------------------------

  ghost predicate DistinctIds(rules: seq<LearnedRule>) {
    forall i, j :: 0 <= i < j < |rules| && rules[i].id != 0 ==> rules[i].id != rules[j].id
  }

  /** Every rule has an id of its own, below the counter. */
  ghost predicate Healthy(s: Store) {
    && DistinctIds(s.rules)
    && forall r :: r in s.rules ==> 0 < r.id < s.nextId
  }

  /** The first id that a load may hand out, as an unbounded number. */
  function FirstFree(s: Store): nat {
    if s.nextId > MaxId(s.rules) then s.nextId else MaxId(s.rules) + 1
  }

  /** How many rules a load has to give an id. */
  function Unassigned(rules: seq<LearnedRule>): nat {
    if rules == [] then 0 else (if rules[0].id == 0 then 1 else 0) + Unassigned(rules[1..])
  }

  /** The counter after a load, as an unbounded number. */
  function Needed(s: Store): nat {
    FirstFree(s) + Unassigned(s.rules)
  }

  /** What stamping does to one rule, and how far it moves the counter. */
  lemma {:induction false} StampKeeps(next: u64, rules: seq<LearnedRule>)
    requires next + Unassigned(rules) < TWO_64
    ensures var s := Stamp(next, rules);
            && |s.rules| == |rules|
            && s.nextId == next + Unassigned(rules)
            && forall i :: 0 <= i < |rules| ==>
                 if rules[i].id == 0
                 then s.rules[i] == rules[i].(id := s.rules[i].id) && next <= s.rules[i].id < s.nextId
                 else s.rules[i] == rules[i]
    decreases |rules|
  {
    if rules != [] {
      var next' := if rules[0].id == 0 then Succ(next) else next;
      StampKeeps(next', rules[1..]);
      var s, rest := Stamp(next, rules), Stamp(next', rules[1..]);
      forall i | 1 <= i < |rules| ensures s.rules[i] == rest.rules[i - 1] && rules[i] == rules[1..][i - 1] {
      }
    }
  }

  /** 64-bit arithmetic. */
  function Wrapped(n: nat): u64 {
    n % TWO_64
  }

  lemma WrappedSucc(next: u64, n: nat)
    ensures Succ(next) == Wrapped(next + 1)
    ensures Wrapped(Succ(next) + n) == Wrapped(next + 1 + n)
    ensures Wrapped(next) == next
  {
  }

  lemma {:induction false} StampAt(next: u64, rules: seq<LearnedRule>, i: nat)
    requires i < |rules|
    ensures |Stamp(next, rules).rules| == |rules|
    ensures Stamp(next, rules).rules[i]
            == if rules[i].id != 0 then rules[i] else rules[i].(id := Wrapped(next + Unassigned(rules[..i])))
    decreases |rules|
  {
    var tail := rules[1..];
    var next' := if rules[0].id == 0 then Succ(next) else next;
    if i == 0 {
      StampKeepsCount(next', tail);
      WrappedSucc(next, 0);
    } else {
      StampAt(next', tail, i - 1);
      assert rules[..i][0] == rules[0] && rules[..i][1..] == tail[..i - 1];
      WrappedSucc(next, Unassigned(tail[..i - 1]));
    }
  }

  lemma {:induction false} StampCounts(next: u64, rules: seq<LearnedRule>)
    ensures Stamp(next, rules).nextId == Wrapped(next + Unassigned(rules))
    decreases |rules|
  {
    if rules == [] {
      WrappedSucc(next, 0);
    } else {
      StampCounts(if rules[0].id == 0 then Succ(next) else next, rules[1..]);
      WrappedSucc(next, Unassigned(rules[1..]));
    }
  }

  /** The first id that a load hands out, in 64-bit arithmetic. */
  function FirstGiven(s: Store): u64 {
    var behind := Wrapped(MaxId(s.rules) + 1);
    if s.nextId < behind then behind else s.nextId
  }

  lemma BackfillIsStamp(s: Store)
    ensures Backfill(s) == Stamp(FirstGiven(s), s.rules)
  {
    WrappedSucc(MaxId(s.rules), 0);
  }

  /** Which id each rule gets, whatever the file: the i-th rule keeps the id it has, or
  gets the first one handed out plus the number of rules without an id before it;
  and the counter ends up behind all of them. */
  lemma BackfillAt(s: Store, i: nat)
    requires i < |s.rules|
    ensures |Backfill(s).rules| == |s.rules|
    ensures Backfill(s).nextId == Wrapped(FirstGiven(s) + Unassigned(s.rules))
    ensures Backfill(s).rules[i]
            == if s.rules[i].id != 0 then s.rules[i]
               else s.rules[i].(id := Wrapped(FirstGiven(s) + Unassigned(s.rules[..i])))
  {
    BackfillIsStamp(s);
    StampAt(FirstGiven(s), s.rules, i);
    StampCounts(FirstGiven(s), s.rules);
  }

  lemma ConsDistinct(r: LearnedRule, rest: seq<LearnedRule>)
    requires DistinctIds(rest)
    requires r.id != 0 ==> forall x :: x in rest ==> x.id != r.id
    ensures DistinctIds([r] + rest)
  {
    var all := [r] + rest;
    forall i, j | 0 <= i < j < |all| && all[i].id != 0 ensures all[i].id != all[j].id {
      assert all[j] == rest[j - 1] && rest[j - 1] in rest;
      assert i > 0 ==> all[i] == rest[i - 1];
    }
  }

  lemma {:induction false} StampIsDistinct(next: u64, rules: seq<LearnedRule>)
    requires next + Unassigned(rules) < TWO_64 && DistinctIds(rules)
    requires forall r :: r in rules ==> r.id < next
    requires next > 0
    ensures DistinctIds(Stamp(next, rules).rules)
    decreases |rules|
  {
    if rules != [] {
      var next' := if rules[0].id == 0 then Succ(next) else next;
      var tail := rules[1..];
      assert forall i :: 0 <= i < |tail| ==> tail[i] == rules[i + 1];
      StampIsDistinct(next', tail);
      StampKeeps(next', tail);
      var s, rest := Stamp(next, rules), Stamp(next', tail);
      forall x | x in rest.rules ensures x.id != s.rules[0].id {
        var j :| 0 <= j < |rest.rules| && rest.rules[j] == x;
        assert tail[j] == rules[j + 1] && rules[j + 1] in rules;
      }
      ConsDistinct(s.rules[0], rest.rules);
    }
  }

  /** A load stamps exactly the rules that had no id, keeps the order and all
  other ids, and never moves the counter back. */
  lemma BackfillHeals(s: Store)
    requires DistinctIds(s.rules) && Needed(s) < TWO_64
    ensures Healthy(Backfill(s))
    ensures |Backfill(s).rules| == |s.rules|
    ensures forall i :: 0 <= i < |s.rules| ==>
              if s.rules[i].id == 0
              then Backfill(s).rules[i] == s.rules[i].(id := Backfill(s).rules[i].id)
              else Backfill(s).rules[i] == s.rules[i]
    ensures Backfill(s).nextId == Needed(s) && s.nextId <= Needed(s)
  {
    var next := Max(s.nextId, Succ(MaxId(s.rules)));
    assert next == FirstFree(s);
    StampKeeps(next, s.rules);
    StampIsDistinct(next, s.rules);
    var b := Backfill(s);
    forall r | r in b.rules ensures 0 < r.id < b.nextId {
      var i :| 0 <= i < |b.rules| && b.rules[i] == r;
      assert s.rules[i] in s.rules;
    }
  }

  lemma {:induction false} StampFixes(next: u64, rules: seq<LearnedRule>)
    requires Unassigned(rules) == 0
    ensures Stamp(next, rules) == Store(next, rules)
    decreases |rules|
  {
    if rules != [] {
      StampFixes(next, rules[1..]);
    }
  }

  lemma {:induction false} NoneUnassigned(rules: seq<LearnedRule>)
    requires forall r :: r in rules ==> r.id != 0
    ensures Unassigned(rules) == 0
  {
    if rules != [] {
      assert rules[0] in rules && forall r :: r in rules[1..] ==> r in rules;
      NoneUnassigned(rules[1..]);
    }
  }

  /** Loading a healthy store changes nothing. */
  lemma BackfillKeepsHealthy(s: Store)
    requires Healthy(s)
    ensures s.nextId > 0 ==> Backfill(s) == s
    ensures Backfill(s).rules == s.rules
  {
    NoneUnassigned(s.rules);
    StampFixes(Max(s.nextId, Succ(MaxId(s.rules))), s.rules);
  }

  /** Loading is idempotent, so a saved load reads back as itself. */
  lemma BackfillIdempotent(s: Store)
    requires DistinctIds(s.rules) && Needed(s) < TWO_64
    ensures Backfill(Backfill(s)) == Backfill(s)
  {
    BackfillHeals(s);
    BackfillKeepsHealthy(Backfill(s));
  }

  predicate LacksId(rules: seq<LearnedRule>) {
    exists i :: 0 <= i < |rules| && rules[i].id == 0
  }

  lemma ConsLacksId(r: LearnedRule, rest: seq<LearnedRule>)
    requires r.id == 0 || LacksId(rest)
    ensures LacksId([r] + rest)
  {
    var all := [r] + rest;
    assert all[0] == r;
    if i :| 0 <= i < |rest| && rest[i].id == 0 {
      assert all[i + 1] == rest[i];
    }
  }

  /** A counter that has wrapped hands out the id 0 first. */
  lemma {:induction false} StampFromZero(rules: seq<LearnedRule>)
    requires Unassigned(rules) > 0
    ensures LacksId(Stamp(0, rules).rules)
  {
    if rules[0].id == 0 {
      ConsLacksId(rules[0].(id := 0), Stamp(Succ(0), rules[1..]).rules);
    } else {
      StampFromZero(rules[1..]);
      ConsLacksId(rules[0], Stamp(0, rules[1..]).rules);
    }
  }

  lemma {:induction false} StampWraps(next: u64, rules: seq<LearnedRule>)
    requires next + Unassigned(rules) >= TWO_64
    ensures LacksId(Stamp(next, rules).rules) || Stamp(next, rules).nextId == 0
    decreases |rules|, 0
  {
    var tail := rules[1..];
    if rules[0].id != 0 {
      StampWraps(next, tail);
      if LacksId(Stamp(next, tail).rules) {
        ConsLacksId(rules[0], Stamp(next, tail).rules);
      }
    } else {
      WrapsBehind(next, tail);
      if LacksId(Stamp(Succ(next), tail).rules) {
        ConsLacksId(rules[0].(id := next), Stamp(Succ(next), tail).rules);
      }
    }
  }

  lemma {:induction false} WrapsBehind(next: u64, tail: seq<LearnedRule>)
    requires next + 1 + Unassigned(tail) >= TWO_64
    ensures LacksId(Stamp(Succ(next), tail).rules) || Stamp(Succ(next), tail).nextId == 0
    decreases |tail|, 1
  {
    if next + 1 < TWO_64 {
      StampWraps(Succ(next), tail);
    } else if Unassigned(tail) > 0 {
      StampFromZero(tail);
    } else {
      StampFixes(0, tail);
    }
  }

  /** Assigned ids survive stamping, whatever the counter does. */
  lemma {:induction false} StampKeepsAssigned(next: u64, rules: seq<LearnedRule>, i: nat)
    requires i < |rules| && rules[i].id != 0
    ensures |Stamp(next, rules).rules| == |rules| && Stamp(next, rules).rules[i] == rules[i]
    decreases |rules|
  {
    var next' := if rules[0].id == 0 then Succ(next) else next;
    if i > 0 {
      StampKeepsAssigned(next', rules[1..], i - 1);
    } else {
      StampKeepsCount(next', rules[1..]);
    }
  }

  lemma TwinsSurviveStamping(next: u64, rules: seq<LearnedRule>)
    requires !DistinctIds(rules)
    ensures !DistinctIds(Stamp(next, rules).rules)
  {
    var i, j :| 0 <= i < j < |rules| && rules[i].id != 0 && rules[i].id == rules[j].id;
    StampKeepsAssigned(next, rules, i);
    StampKeepsAssigned(next, rules, j);
  }

  lemma FullStoreStaysUnhealthy(s: Store)
    requires MaxId(s.rules) == TWO_64 - 1
    ensures !Healthy(Backfill(s))
  {
    var next := Max(s.nextId, Succ(MaxId(s.rules)));
    var r :| r in s.rules && r.id == TWO_64 - 1;
    var i :| 0 <= i < |s.rules| && s.rules[i] == r;
    StampKeepsAssigned(next, s.rules, i);
    assert Backfill(s).rules[i] in Backfill(s).rules;
  }

  lemma WrappedStoreIsUnhealthy(s: Store)
    requires s.rules != [] && (LacksId(s.rules) || s.nextId == 0)
    ensures !Healthy(s)
  {
    assert s.rules[0] in s.rules;
    if i :| 0 <= i < |s.rules| && s.rules[i].id == 0 {
      assert s.rules[i] in s.rules;
    }
  }

  /** Exactly when a load heals the file: the assigned ids are distinct, and the
  64-bit counter has room for all that have to be handed out. */
  lemma BackfillHealsIff(s: Store)
    ensures Healthy(Backfill(s)) <==> DistinctIds(s.rules) && Needed(s) < TWO_64
  {
    var next := Max(s.nextId, Succ(MaxId(s.rules)));
    if !DistinctIds(s.rules) {
      TwinsSurviveStamping(next, s.rules);
    } else if Needed(s) < TWO_64 {
      BackfillHeals(s);
    } else if MaxId(s.rules) == TWO_64 - 1 {
      FullStoreStaysUnhealthy(s);
    } else {
      assert FirstFree(s) == next;
      StampWraps(next, s.rules);
      StampKeepsCount(next, s.rules);
      WrappedStoreIsUnhealthy(Backfill(s));
    }
  }

  /** A file that is missing or cannot be parsed reads as no rules, and ids start at 1. */
  lemma UnreadableIsEmpty(rule: LearnedRule)
    ensures Load(Unparseable).rules == []
    ensures Pushed(Load(Unparseable), rule) == Store(2, [rule.(id := 1)])
  {
  }

  // ---- Runs ----------------------------------------------------------------

  /** The daemon learns a rule, `filewallctl` removes or lists. */
  datatype Op = Learn(rule: LearnedRule) | Remove(ids: seq<u64>) | List

  /** One atomic load, change and save; a removal that removes nothing does not save. */
  function Apply(disk: Store, op: Op): Store {
    var loaded := Backfill(disk);
    match op
    case Learn(rule) => Pushed(loaded, rule)
    case Remove(ids) => if Taken(loaded.rules, ids) == [] then disk else Store(loaded.nextId, Retain(loaded.rules, ids))
    case List => disk
  }

  /** How many rules are learned. */
  function Learns(ops: seq<Op>): nat
    decreases |ops|
  {
    if ops == [] then 0
    else Learns(ops[..|ops| - 1]) + (if ops[|ops| - 1].Learn? then 1 else 0)
  }

  function After(disk: Store, ops: seq<Op>): Store
    decreases |ops|
  {
    if ops == [] then disk else Apply(After(disk, ops[..|ops| - 1]), ops[|ops| - 1])
  }

  /** What any process that loads the file after `ops` sees. */
  function Seen(disk: Store, ops: seq<Op>): Store {
    Backfill(After(disk, ops))
  }

  lemma RetainIsPart(rules: seq<LearnedRule>, ids: seq<u64>)
    ensures forall r :: r in Retain(rules, ids) ==> r in rules
  {
    forall r | r in Retain(rules, ids) ensures r in rules {
      RemovalSplits(rules, ids, r);
    }
  }

  lemma {:induction false} RetainDistinct(rules: seq<LearnedRule>, ids: seq<u64>)
    requires DistinctIds(rules) && forall r :: r in rules ==> r.id != 0
    ensures DistinctIds(Retain(rules, ids))
  {
    if rules != [] {
      var tail := rules[1..];
      assert forall i :: 0 <= i < |tail| ==> tail[i] == rules[i + 1];
      RetainDistinct(tail, ids);
      var kept := Retain(tail, ids);
      if rules[0].id !in ids {
        forall x | x in kept ensures x.id != rules[0].id {
          RemovalSplits(tail, ids, x);
          var k :| 0 <= k < |tail| && tail[k] == x;
          assert rules[k + 1] == x;
        }
        ConsDistinct(rules[0], kept);
      }
    }
  }

  /** One operation, as other processes see it: the counter does not go back, and
  every rule seen after it was seen before it or carries a fresh id. */
  lemma ApplySeen(disk: Store, op: Op)
    requires Healthy(Backfill(disk)) && Backfill(disk).nextId > 0
    requires op.Learn? ==> Backfill(disk).nextId + 1 < TWO_64
    ensures var before, after := Backfill(disk), Backfill(Apply(disk, op));
            && Healthy(after)
            && after.nextId == before.nextId + (if op.Learn? then 1 else 0)
            && (forall r :: r in after.rules ==> r in before.rules || r.id == before.nextId)
            && (op.Learn? ==> after == Pushed(before, op.rule))
            && (op.Remove? ==> after == Store(before.nextId, Retain(before.rules, op.ids)))
            && (op.List? ==> Apply(disk, op) == disk)
  {
    var before := Backfill(disk);
    var changed := Apply(disk, op);
    match op {
      case Learn(rule) =>
        assert Healthy(changed);
        BackfillKeepsHealthy(changed);
      case Remove(ids) =>
        RetainDistinct(before.rules, ids);
        RetainIsPart(before.rules, ids);
        if changed == disk && Taken(before.rules, ids) == [] {
          NothingTaken(before.rules, ids);
        } else {
          assert Healthy(changed);
          BackfillKeepsHealthy(changed);
        }
      case List =>
    }
  }

  lemma {:induction false} NothingTaken(rules: seq<LearnedRule>, ids: seq<u64>)
    requires Taken(rules, ids) == []
    ensures Retain(rules, ids) == rules
  {
    if rules != [] {
      NothingTaken(rules[1..], ids);
    }
  }

  /** Whatever the run, what is seen is healthy, and the counter counts. */
  lemma {:induction false} SeenIsHealthy(disk: Store, ops: seq<Op>)
    requires DistinctIds(disk.rules) && Needed(disk) + Learns(ops) < TWO_64
    ensures Healthy(Seen(disk, ops))
    ensures Seen(disk, ops).nextId == Needed(disk) + Learns(ops)
    decreases |ops|
  {
    if ops == [] {
      BackfillHeals(disk);
    } else {
      SeenIsHealthy(disk, ops[..|ops| - 1]);
      ApplySeen(After(disk, ops[..|ops| - 1]), ops[|ops| - 1]);
    }
  }

  /** Later views hold old rules unchanged, and new ones only with ids that were
  free at the earlier view. */
  lemma {:induction false} SeenOnlyGrowsUpwards(disk: Store, ops: seq<Op>, i: nat)
    requires DistinctIds(disk.rules) && Needed(disk) + Learns(ops) < TWO_64 && i <= |ops|
    ensures var early, late := Seen(disk, ops[..i]), Seen(disk, ops);
            && early.nextId <= late.nextId
            && forall r :: r in late.rules ==> r in early.rules || r.id >= early.nextId
    decreases |ops|
  {
    if i == |ops| {
      assert ops[..i] == ops;
    } else {
      var shorter := ops[..|ops| - 1];
      assert shorter[..i] == ops[..i];
      SeenIsHealthy(disk, shorter);
      SeenOnlyGrowsUpwards(disk, shorter, i);
      ApplySeen(After(disk, shorter), ops[|ops| - 1]);
    }
  }

  lemma {:induction false} LearnsMore(ops: seq<Op>, i: nat)
    requires i <= |ops|
    ensures Learns(ops[..i]) <= Learns(ops)
    decreases |ops|
  {
    if i == |ops| {
      assert ops[..i] == ops;
    } else {
      LearnsMore(ops[..|ops| - 1], i);
      assert ops[..|ops| - 1][..i] == ops[..i];
    }
  }

  /** Two views of the file, taken any number of operations apart, never use one
  id for two different rules; ids are nonzero, distinct and below the counter,
  and the counter never goes back. */
  lemma StableIds(disk: Store, ops: seq<Op>, i: nat)
    requires DistinctIds(disk.rules) && Needed(disk) + Learns(ops) < TWO_64 && i <= |ops|
    ensures Healthy(Seen(disk, ops))
    ensures Seen(disk, ops[..i]).nextId <= Seen(disk, ops).nextId
    ensures forall r, r' :: r in Seen(disk, ops[..i]).rules && r' in Seen(disk, ops).rules && r.id == r'.id ==> r == r'
  {
    LearnsMore(ops, i);
    SeenIsHealthy(disk, ops);
    SeenIsHealthy(disk, ops[..i]);
    SeenOnlyGrowsUpwards(disk, ops, i);
    var early := Seen(disk, ops[..i]);
    forall r, r' | r in early.rules && r' in Seen(disk, ops).rules && r.id == r'.id ensures r == r' {
      IdsName(early.rules, r, r');
    }
  }

  lemma IdsName(rules: seq<LearnedRule>, r: LearnedRule, r': LearnedRule)
    requires DistinctIds(rules) && r in rules && r' in rules && r.id == r'.id != 0
    ensures r == r'
  {
    var a :| 0 <= a < |rules| && rules[a] == r;
    var b :| 0 <= b < |rules| && rules[b] == r';
  }

  /** The id of a newly learned rule was never seen before, even if the rule that
  had the highest id is long gone. */
  lemma LearnedIdIsFresh(disk: Store, ops: seq<Op>, rule: LearnedRule, i: nat)
    requires DistinctIds(disk.rules) && Needed(disk) + Learns(ops) + 1 < TWO_64 && i <= |ops|
    ensures var late := Seen(disk, ops + [Learn(rule)]);
            && late.rules == Seen(disk, ops).rules + [rule.(id := Seen(disk, ops).nextId)]
            && forall r :: r in Seen(disk, ops[..i]).rules ==> r.id < Seen(disk, ops).nextId
  {
    LearnsMore(ops, i);
    SeenIsHealthy(disk, ops);
    SeenIsHealthy(disk, ops[..i]);
    SeenOnlyGrowsUpwards(disk, ops, i);
    var all := ops + [Learn(rule)];
    assert all[..|all| - 1] == ops && all[|all| - 1] == Learn(rule);
    ApplySeen(After(disk, ops), Learn(rule));
  }

  /** Learning with a full counter: the new rule takes the largest id, and the
  counter wraps below it. */
  lemma LastIdIsFatal(disk: Store, rule: LearnedRule)
    requires Backfill(disk).nextId == TWO_64 - 1
    ensures !Healthy(Backfill(Apply(disk, Learn(rule))))
  {
    var changed := Apply(disk, Learn(rule));
    var learned := rule.(id := TWO_64 - 1);
    assert changed.rules == Backfill(disk).rules + [learned];
    assert changed.rules[|changed.rules| - 1] == learned && learned in changed.rules;
    FullStoreStaysUnhealthy(changed);
  }

  lemma {:induction false} SomeViewIsUnhealthy(disk: Store, ops: seq<Op>) returns (i: nat)
    requires !DistinctIds(disk.rules) || Needed(disk) + Learns(ops) >= TWO_64
    ensures i <= |ops| && !Healthy(Seen(disk, ops[..i]))
    decreases |ops|
  {
    if !DistinctIds(disk.rules) || Needed(disk) >= TWO_64 {
      i := 0;
      BackfillHealsIff(disk);
      assert ops[..0] == [];
    } else {
      var last := |ops| - 1;
      if Needed(disk) + Learns(ops[..last]) >= TWO_64 {
        i := SomeViewIsUnhealthy(disk, ops[..last]);
        assert ops[..last][..i] == ops[..i];
      } else {
        i := |ops|;
        SeenIsHealthy(disk, ops[..last]);
        LastIdIsFatal(After(disk, ops[..last]), ops[last].rule);
        assert ops[..i] == ops;
      }
    }
  }

  /** Exactly when every view of a run is healthy: the file starts without twins
  and its counter has room for every rule that is stamped or learned. */
  lemma EveryViewIsHealthyIff(disk: Store, ops: seq<Op>)
    ensures (forall i :: 0 <= i <= |ops| ==> Healthy(Seen(disk, ops[..i])))
            <==> DistinctIds(disk.rules) && Needed(disk) + Learns(ops) < TWO_64
  {
    if DistinctIds(disk.rules) && Needed(disk) + Learns(ops) < TWO_64 {
      forall i | 0 <= i <= |ops| ensures Healthy(Seen(disk, ops[..i])) {
        LearnsMore(ops, i);
        SeenIsHealthy(disk, ops[..i]);
      }
    } else {
      var i := SomeViewIsUnhealthy(disk, ops);
    }
  }

  /** The room is needed: next to a rule that holds the largest id the counter
  wraps, and a rule without an id is left without one. */
  lemma FullCounterLosesIds(r: LearnedRule)
    ensures var disk := Store(0, [r.(id := TWO_64 - 1), r.(id := 0)]);
            && DistinctIds(disk.rules)
            && |Backfill(disk).rules| == 2
            && Backfill(disk).rules[1].id == 0
            && !Healthy(Backfill(disk))
  {
    var a, b := r.(id := TWO_64 - 1), r.(id := 0);
    var disk := Store(0, [a, b]);
    assert [a, b][1..] == [b] && [b][1..] == [];
    assert MaxId([b]) == 0 && MaxId([a, b]) == TWO_64 - 1;
    assert Stamp(0, [a, b]).rules == [a] + Stamp(0, [b]).rules;
    assert Stamp(0, [b]).rules == [b];
    assert Backfill(disk).rules[1] in Backfill(disk).rules;
  }
}

/** The reload block of the event loop: both files, the marks, and the watches. */
module Reloading {
  import opened Wrappers
  import opened Policy
  import opened Marking
  import opened Rules
  import C = Coverage
  import P = ReloadProtocol

  class Core {
    const fan: Fanotify
    const marks: MarkSet
    const reload: Flag
    var tree: TreeWatch
    var policy: Policy
    var rules: Store

    constructor (fan: Fanotify, marks: MarkSet, reload: Flag, tree: TreeWatch, policy: Policy, rules: Store)
      ensures this.fan == fan && this.marks == marks && this.reload == reload && this.tree == tree
      ensures this.policy == policy && this.rules == rules
    {
      this.fan, this.marks, this.reload, this.tree := fan, marks, reload, tree;
      this.policy, this.rules := policy, rules;
    }

    /** `s` is a state of the reload protocol in which the loop is serving with what
    is in memory now. */
    ghost predicate Shows(s: P.State)
      reads this, reload
    {
      s.phase.Serving? && s.flag == reload.raised && s.memPolicy == policy && s.memRules == rules
    }

    ghost function Now(): View
      reads this, fan, marks, reload, tree
    {
      tree.Now(fan, marks, reload)
    }

    /** Clear the flag first; if it was set and the configuration is good, replace
    policy and rules, mark everything anew and rebuild the watches.  The block is
    a run of the reload protocol from `s`, and a reload step of mark coverage. */
    method ReloadIfRequested(config: P.ConfigText, rulesText: RulesText, initOk: bool, m: Moment, ghost s: P.State)
      requires Shows(s) && s.config == config && s.rules == rulesText
      modifies this, fan, marks, reload
      ensures P.Valid(s, P.ReloadSteps(s)) && Shows(P.Final(s, P.ReloadSteps(s)))
      ensures !old(reload.raised) || config.Broken? ==>
                tree == old(tree) && Now() == old(Now()).(reload := false)
      ensures old(reload.raised) && config.Good? ==>
                C.FullMark(config.policy, initOk, m, old(fan.marked), C.State(m.fs, policy, Now(), [], false))
                && !Now().reload
    {
      P.ReloadBlock(s);
      if !reload.raised {
        return;
      }
      reload.raised := false;
      match config {
        case Good(newPolicy) =>
          policy := newPolicy;
          rules := Load(rulesText);
          tree := C.ReMark(fan, marks, reload, policy, initOk, m);
        case Broken =>
      }
    }
  }
}

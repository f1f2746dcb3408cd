/** The kernel's rule tables and `apply_firewall`, which rebuilds EDO_FORWARD in place. */
module Iptables {
  import opened Base
  import opened Firewall

  datatype ChainName = DockerUser | Forward | EdoForward | Other(name: string)

  /** `Hook` is `-j EDO_FORWARD`; rules the daemon did not write are opaque. */
  datatype KernelRule = Hook | Filter(rule: Rule) | Foreign(spec: string)

  type Chain = seq<KernelRule>
  type Chains = map<ChainName, Chain>

  /** `_FORWARD_HOOK_CANDIDATES`, in order of preference. */
  const CANDIDATES: seq<ChainName> := [DockerUser, Forward]
  const MAX_UNHOOKS: nat := 5

  predicate IsCandidate(c: ChainName) { c == DockerUser || c == Forward }

  // ----- one chain as a value

  /** `iptables -D`: the first rule equal to `r` goes. */
  function RemoveFirst(s: Chain, r: KernelRule): Chain {
    if s == [] then []
    else if s[0] == r then s[1..]
    else [s[0]] + RemoveFirst(s[1..], r)
  }

  /** The rules the daemon does not own, in order. */
  function StripHooks(s: Chain): Chain {
    if s == [] then []
    else if s[0] == Hook then StripHooks(s[1..])
    else [s[0]] + StripHooks(s[1..])
  }

  function CountHooks(s: Chain): nat {
    if s == [] then 0 else (if s[0] == Hook then 1 else 0) + CountHooks(s[1..])
  }

  function Filters(rules: seq<Rule>): (s: Chain)
    ensures |s| == |rules| && forall i :: 0 <= i < |s| ==> s[i] == Filter(rules[i])
  {
    seq(|rules|, i requires 0 <= i < |rules| => Filter(rules[i]))
  }

  lemma {:induction false} HookPresence(s: Chain)
    ensures CountHooks(s) > 0 <==> Hook in s
  {
    if s != [] {
      HookPresence(s[1..]);
      assert Hook in s <==> s[0] == Hook || Hook in s[1..];
    }
  }

  lemma {:induction false} RemoveFirstHook(s: Chain)
    requires CountHooks(s) > 0
    ensures CountHooks(RemoveFirst(s, Hook)) == CountHooks(s) - 1
    ensures StripHooks(RemoveFirst(s, Hook)) == StripHooks(s)
  {
    if s[0] != Hook {
      RemoveFirstHook(s[1..]);
      assert ([s[0]] + RemoveFirst(s[1..], Hook))[1..] == RemoveFirst(s[1..], Hook);
    }
  }

  lemma {:induction false} NoHooksNothingToStrip(s: Chain)
    requires CountHooks(s) == 0
    ensures StripHooks(s) == s
  {
    if s != [] {
      NoHooksNothingToStrip(s[1..]);
    }
  }

  lemma {:induction false} StrippedHasNoHooks(s: Chain)
    ensures CountHooks(StripHooks(s)) == 0
    ensures StripHooks(StripHooks(s)) == StripHooks(s)
  {
    if s != [] {
      StrippedHasNoHooks(s[1..]);
      NoHooksNothingToStrip(StripHooks(s));
    }
  }

  /** What the bounded unhook loop makes of a chain when failed commands cost it `lost` of its five tries:
      the foreign rules in order, and the hooks that the other tries did not reach. */
  ghost predicate Unhooked(before: Chain, after: Chain, lost: nat) {
    && lost <= MAX_UNHOOKS && StripHooks(after) == StripHooks(before)
    && CountHooks(after) == var tries := MAX_UNHOOKS - lost;
                            if CountHooks(before) > tries then CountHooks(before) - tries else 0
  }

  /** `n` deletions of a hook later. */
  ghost predicate Reduced(before: Chain, after: Chain, n: nat) {
    StripHooks(after) == StripHooks(before) && CountHooks(after) == CountHooks(before) - n
  }

  lemma ReducedStep(before: Chain, current: Chain, n: nat)
    requires Reduced(before, current, n) && Hook in current
    ensures Reduced(before, RemoveFirst(current, Hook), n + 1)
  {
    HookPresence(current);
    RemoveFirstHook(current);
  }

  /** The loop ended after `guard` tries, `lost` of them without effect. */
  lemma ReducedIsUnhooked(before: Chain, after: Chain, guard: nat, lost: nat)
    requires lost <= guard <= MAX_UNHOOKS && Reduced(before, after, guard - lost)
    ensures Unhooked(before, after, if Hook in after then lost + (MAX_UNHOOKS - guard) else lost)
  {
    HookPresence(after);
  }

  /** The same with a new hook in front. */
  ghost predicate Rehooked(before: Chain, after: Chain, lost: nat) {
    after != [] && after[0] == Hook && Unhooked(before, after[1..], lost)
  }

  /** The loop clears a chain exactly when its hooks and the tries lost fit in five. */
  lemma UnhookedIsCleanIff(before: Chain, after: Chain, lost: nat)
    requires Unhooked(before, after, lost)
    ensures CountHooks(after) == 0 <==> CountHooks(before) + lost <= 5
    ensures CountHooks(before) + lost <= 5 ==> after == StripHooks(before)
  {
    if CountHooks(after) == 0 {
      NoHooksNothingToStrip(after);
    }
  }

  type Counts = multiset<ChainName>

  /** What failures cost the unhook loop of one chain: a failed deletion one try, and a failed probe, which
      reads as absent, any number of them. */
  ghost predicate CostsFor(lost: nat, deletes: nat, deletes': nat, probes: nat, probes': nat) {
    && deletes <= deletes' && probes <= probes' && deletes' - deletes <= lost <= MAX_UNHOOKS
    && (probes' == probes ==> lost == deletes' - deletes)
  }

  ghost predicate Costs(lost: Counts, deletes: Counts, deletes': Counts, probes: Counts, probes': Counts) {
    forall c :: CostsFor(lost[c], deletes[c], deletes'[c], probes[c], probes'[c])
  }

  ghost predicate NoneShrinks(before: Counts, after: Counts) {
    forall c :: before[c] <= after[c]
  }

  lemma CostsWithLaterProbes(lost: Counts, deletes: Counts, deletes': Counts, probes: Counts, probes': Counts,
                             probes'': Counts)
    requires Costs(lost, deletes, deletes', probes, probes') && NoneShrinks(probes', probes'')
    ensures Costs(lost, deletes, deletes', probes, probes'') && NoneShrinks(probes, probes'')
  {}

  // ----- the kernel

  /** The rule tables as a value, with the failed commands so far. */
  datatype KernelView = KernelView(chains: Chains, faults: nat)

  class Kernel {
    var chains: Chains
    /** Deletions that failed so far, per chain; `apply_firewall` never looks at their results. */
    var deleteFaults: Counts
    /** Failed `-C` and `-L` probes so far, per chain; they read as absent. */
    var probeFaults: Counts
    /** Commands other than deletions that failed so far. */
    var faults: nat
    /** Flushes that failed so far; the one that rolls back is not looked at. */
    var flushFaults: nat

    ghost function View(): KernelView
      reads this
    {
      KernelView(chains, faults)
    }

    constructor (chains: Chains)
      ensures this.chains == chains && faults == 0
    {
      this.chains := chains;
      deleteFaults, probeFaults, faults, flushFaults := multiset{}, multiset{}, 0, 0;
    }

    /** `_iptables_check`: any failure of `iptables -C` reads as absent. */
    method Check(chain: ChainName, rule: KernelRule) returns (found: bool)
      modifies this`probeFaults, this`faults
      ensures found ==> chain in chains && rule in chains[chain]
      ensures old(faults) <= faults && GrowsAt(old(probeFaults), probeFaults, chain)
      ensures !found && chain in chains && rule in chains[chain] ==>
                old(probeFaults)[chain] < probeFaults[chain] && old(faults) < faults
    {
      var fault: bool := *;
      found := chain in chains && rule in chains[chain] && !fault;
      if fault {
        probeFaults, faults := probeFaults[chain := probeFaults[chain] + 1], faults + 1;
      }
    }

    /** `_chain_exists`: any failure of `iptables -L` reads as absent. */
    method ChainExists(chain: ChainName) returns (found: bool)
      modifies this`probeFaults, this`faults
      ensures found ==> chain in chains
      ensures old(faults) <= faults && GrowsAt(old(probeFaults), probeFaults, chain)
      ensures !found && chain in chains ==> old(probeFaults)[chain] < probeFaults[chain] && old(faults) < faults
    {
      var fault: bool := *;
      found := chain in chains && !fault;
      if fault {
        probeFaults, faults := probeFaults[chain := probeFaults[chain] + 1], faults + 1;
      }
    }

    /** `iptables -N`. */
    method NewChain(chain: ChainName)
      modifies this`chains, this`faults
      ensures old(faults) <= faults && (chain !in chains ==> old(faults) < faults)
      ensures chains == old(chains) || (chain !in old(chains) && chains == old(chains)[chain := []])
    {
      var fault: bool := *;
      if chain !in chains && !fault {
        chains := chains[chain := []];
      }
      faults := if fault then faults + 1 else faults;
    }

    /** `iptables -I chain 1`. A jump to a chain that does not exist is refused. */
    method InsertFirst(chain: ChainName, rule: KernelRule) returns (ok: bool)
      modifies this`chains, this`faults
      ensures old(faults) <= faults
      ensures chain in old(chains) && (rule == Hook ==> EdoForward in old(chains)) && !ok ==> old(faults) < faults
      ensures ok ==> chain in old(chains) && (rule == Hook ==> EdoForward in old(chains))
      ensures ok ==> chains == old(chains)[chain := [rule] + old(chains)[chain]]
      ensures !ok ==> chains == old(chains)
    {
      var fault: bool := *;
      ok := chain in chains && (rule == Hook ==> EdoForward in chains) && !fault;
      if ok {
        chains := chains[chain := [rule] + chains[chain]];
      }
      faults := if fault then faults + 1 else faults;
    }

    /** `iptables -F`. */
    method Flush(chain: ChainName) returns (ok: bool)
      modifies this`chains, this`faults, this`flushFaults
      ensures flushFaults == old(flushFaults) + if chain in old(chains) && !ok then 1 else 0
      ensures old(faults) <= faults && (chain in old(chains) && !ok ==> old(faults) < faults)
      ensures ok ==> chain in old(chains) && chains == old(chains)[chain := []]
      ensures !ok ==> chains == old(chains)
    {
      var fault: bool := *;
      ok := chain in chains && !fault;
      if ok {
        chains := chains[chain := []];
      } else if chain in chains {
        flushFaults := flushFaults + 1;
      }
      faults := if fault then faults + 1 else faults;
    }

    /** `_iptables_append`: nothing happens when the check finds the rule; when the check fails, a rule
        that is there is appended again. */
    method Append(chain: ChainName, rule: KernelRule) returns (ok: bool)
      requires chain in chains
      modifies this`chains, this`probeFaults, this`faults
      ensures old(faults) <= faults && (!ok ==> old(faults) < faults)
      ensures GrowsAt(old(probeFaults), probeFaults, chain)
      ensures ok ==> (rule in old(chains)[chain] && chains == old(chains)) ||
                     chains == old(chains)[chain := old(chains)[chain] + [rule]]
      ensures ok && faults == old(faults) && rule in old(chains)[chain] ==> chains == old(chains)
      ensures !ok ==> chains == old(chains)
    {
      var found := Check(chain, rule);
      if found {
        return true;
      }
      var fault: bool := *;
      ok := !fault;
      if ok {
        chains := chains[chain := chains[chain] + [rule]];
      } else {
        faults := faults + 1;
      }
    }

    /** `_iptables_delete`: succeeds without effect when the check does not find the rule. */
    method Delete(chain: ChainName, rule: KernelRule) returns (ok: bool, ghost removed: bool)
      requires chain in chains
      modifies this`chains, this`deleteFaults, this`probeFaults, this`faults
      ensures old(faults) <= faults && GrowsAt(old(deleteFaults), deleteFaults, chain)
      ensures GrowsAt(old(probeFaults), probeFaults, chain)
      ensures if removed then
                rule in old(chains)[chain] && chains == old(chains)[chain := RemoveFirst(old(chains)[chain], rule)]
              else chains == old(chains)
      ensures !ok <==> deleteFaults[chain] == old(deleteFaults)[chain] + 1
      ensures ok ==> deleteFaults[chain] == old(deleteFaults)[chain]
      ensures !ok ==> !removed
      ensures ok && rule in old(chains)[chain] && !removed ==> probeFaults[chain] > old(probeFaults)[chain]
    {
      removed := false;
      var found := Check(chain, rule);
      if !found {
        return true, removed;
      }
      var fault: bool := *;
      ok := !fault;
      if ok {
        removed := true;
        chains := chains[chain := RemoveFirst(chains[chain], rule)];
      } else {
        deleteFaults := deleteFaults[chain := deleteFaults[chain] + 1];
      }
    }

    /** `_preferred_forward_hook`. */
    method PreferredHook() returns (target: ChainName)
      modifies this`probeFaults, this`faults
      ensures IsCandidate(target) && old(faults) <= faults && NoneShrinks(old(probeFaults), probeFaults)
      ensures target == Forward && DockerUser in chains ==>
                old(probeFaults)[DockerUser] < probeFaults[DockerUser] && old(faults) < faults
      ensures target == DockerUser ==> DockerUser in chains
    {
      for i := 0 to |CANDIDATES|
        invariant old(faults) <= faults && NoneShrinks(old(probeFaults), probeFaults)
        invariant i > 0 && DockerUser in chains ==>
                    old(probeFaults)[DockerUser] < probeFaults[DockerUser] && old(faults) < faults
      {
        var found := ChainExists(CANDIDATES[i]);
        if found {
          return CANDIDATES[i];
        }
      }
      target := Forward;
    }

    /** One deletion of the unhook loop; `one` is 1 if it had no effect. */
    method TryUnhook(chain: ChainName, ghost before: Chain, ghost removed: nat) returns (ghost one: nat)
      requires chain in chains && Hook in chains[chain] && Reduced(before, chains[chain], removed)
      modifies this`chains, this`deleteFaults, this`probeFaults, this`faults
      ensures one <= 1 && old(faults) <= faults
      ensures GrowsAt(old(deleteFaults), deleteFaults, chain) && GrowsAt(old(probeFaults), probeFaults, chain)
      ensures CostsFor(one, old(deleteFaults)[chain], deleteFaults[chain], old(probeFaults)[chain], probeFaults[chain])
      ensures OthersKept(old(chains), chains, chain)
      ensures Reduced(before, chains[chain], removed + 1 - one)
    {
      var ok, gone := Delete(chain, Hook);
      one := if gone then 0 else 1;
      if gone {
        ReducedStep(before, old(chains)[chain], removed);
      }
    }

    /** The part of `_unhook_edo_from_all` that one candidate chain sees. */
    method UnhookFrom(chain: ChainName) returns (ghost lost: nat)
      requires chain in chains
      modifies this`chains, this`deleteFaults, this`probeFaults, this`faults
      ensures old(faults) <= faults
      ensures GrowsAt(old(deleteFaults), deleteFaults, chain) && GrowsAt(old(probeFaults), probeFaults, chain)
      ensures CostsFor(lost, old(deleteFaults)[chain], deleteFaults[chain], old(probeFaults)[chain], probeFaults[chain])
      ensures OthersKept(old(chains), chains, chain)
      ensures Unhooked(old(chains)[chain], chains[chain], lost)
    {
      lost := 0;
      var guard := 0;
      var found := Check(chain, Hook);
      while found && guard < MAX_UNHOOKS
        invariant 0 <= lost <= guard <= MAX_UNHOOKS && old(faults) <= faults
        invariant GrowsAt(old(deleteFaults), deleteFaults, chain) && GrowsAt(old(probeFaults), probeFaults, chain)
        invariant CostsFor(lost, old(deleteFaults)[chain], deleteFaults[chain], old(probeFaults)[chain], probeFaults[chain])
        invariant OthersKept(old(chains), chains, chain)
        invariant Reduced(old(chains)[chain], chains[chain], guard - lost)
        invariant found ==> Hook in chains[chain]
        invariant !found && Hook in chains[chain] ==> old(probeFaults)[chain] < probeFaults[chain]
      {
        ghost var one := TryUnhook(chain, old(chains)[chain], guard - lost);
        lost := lost + one;
        guard := guard + 1;
        found := Check(chain, Hook);
      }
      ReducedIsUnhooked(old(chains)[chain], chains[chain], guard, lost);
      if Hook in chains[chain] {
        lost := lost + (MAX_UNHOOKS - guard);
      }
    }

    /** `_unhook_edo_from_all`: up to five deletions in each candidate chain that is found. */
    method UnhookEdoFromAll() returns (ghost lost: Counts)
      modifies this`chains, this`deleteFaults, this`probeFaults, this`faults
      ensures old(faults) <= faults
      ensures Costs(lost, old(deleteFaults), deleteFaults, old(probeFaults), probeFaults)
      ensures UnhookedAll(old(chains), chains, lost)
    {
      lost := multiset{};
      UnhookedNone(chains);
      for i := 0 to |CANDIDATES|
        invariant old(faults) <= faults
        invariant Costs(lost, old(deleteFaults), deleteFaults, old(probeFaults), probeFaults)
        invariant UnhookedSome(old(chains), chains, lost, CANDIDATES[..i])
        invariant forall c :: c !in CANDIDATES[..i] ==>
                    deleteFaults[c] == old(deleteFaults)[c] && probeFaults[c] == old(probeFaults)[c]
      {
        assert CANDIDATES[..i + 1] == CANDIDATES[..i] + [CANDIDATES[i]];
        ghost var current, now := chains, lost;
        var one := UnhookCandidate(CANDIDATES[i]);
        lost := lost[CANDIDATES[i] := one];
        UnhookedOneMore(old(chains), current, chains, now, CANDIDATES[..i], CANDIDATES[i], one);
      }
      assert CANDIDATES[..|CANDIDATES|] == CANDIDATES;
    }

    /** One candidate: a lookup that fails costs all five tries. */
    method UnhookCandidate(chain: ChainName) returns (ghost lost: nat)
      modifies this`chains, this`deleteFaults, this`probeFaults, this`faults
      ensures old(faults) <= faults
      ensures GrowsAt(old(deleteFaults), deleteFaults, chain) && GrowsAt(old(probeFaults), probeFaults, chain)
      ensures CostsFor(lost, old(deleteFaults)[chain], deleteFaults[chain], old(probeFaults)[chain], probeFaults[chain])
      ensures OthersKept(old(chains), chains, chain)
      ensures chain in chains ==> Unhooked(old(chains)[chain], chains[chain], lost)
    {
      lost := 0;
      var found := ChainExists(chain);
      if found {
        lost := UnhookFrom(chain);
      } else if chain in chains {
        lost := MAX_UNHOOKS;
      }
    }

    /** The append loop of `apply_firewall` with its rollback, run on the flushed chain. */
    method InstallRules(rules: seq<Rule>) returns (ok: bool)
      requires EdoForward in chains && chains[EdoForward] == []
      modifies this`chains, this`probeFaults, this`faults, this`flushFaults
      ensures old(faults) <= faults && (!ok ==> old(faults) < faults)
      ensures GrowsAt(old(probeFaults), probeFaults, EdoForward)
      ensures EdoForward in chains && chains == old(chains)[EdoForward := chains[EdoForward]]
      ensures ok ==> Listed(chains[EdoForward], rules)
      ensures ok && faults == old(faults) ==> chains[EdoForward] == Filters(KeepFirst(rules))
      // rolled back, unless the flush failed too
      ensures !ok ==> chains[EdoForward] == [] ||
                      (old(flushFaults) < flushFaults && PartlyInstalled(chains[EdoForward], rules))
      ensures ok ==> flushFaults == old(flushFaults)
    {
      ListedStarts(rules);
      for i := 0 to |rules|
        invariant old(faults) <= faults && GrowsAt(old(probeFaults), probeFaults, EdoForward)
        invariant flushFaults == old(flushFaults)
        invariant EdoForward in chains && chains == old(chains)[EdoForward := chains[EdoForward]]
        invariant Listed(chains[EdoForward], rules[..i])
        invariant faults == old(faults) ==> chains[EdoForward] == Filters(KeepFirst(rules[..i]))
      {
        ghost var edo := chains[EdoForward];
        ok := Append(EdoForward, Filter(rules[i]));
        ListedStep(edo, rules, i);
        if !ok {
          var flushed := Flush(EdoForward);
          ListedIsPart(chains[EdoForward], rules, if flushed then 0 else i);
          return false;
        }
      }
      assert rules[..|rules|] == rules;
      ok := true;
    }

    /** The opening commands of `apply_firewall`: create, unhook everywhere, hook first, flush. */
    method HookEmptyChain() returns (ok: bool, ghost lost: Counts, ghost target: ChainName)
      modifies this
      ensures old(faults) <= faults && (!ok ==> old(faults) < faults || NoCandidate(old(chains)))
      ensures old(flushFaults) <= flushFaults
      ensures Costs(lost, old(deleteFaults), deleteFaults, old(probeFaults), probeFaults)
      ensures ok ==> AppliedFrom(old(chains), chains, lost, [], target)
      ensures ok && target == Forward && DockerUser in old(chains) ==>
                old(probeFaults)[DockerUser] < probeFaults[DockerUser] && old(faults) < faults
      ensures !ok ==> ForeignRulesKept(old(chains), chains) && EdoChainOnlyCreated(old(chains), chains)
    {
      NewChain(EdoForward);
      ghost var created := chains;
      lost := UnhookEdoFromAll();
      ghost var unhooked, probes := chains, probeFaults;
      UnhookingKeepsForeign(old(chains), created, unhooked, lost);
      var hook := PreferredHook();
      CostsWithLaterProbes(lost, old(deleteFaults), deleteFaults, old(probeFaults), probes, probeFaults);
      target := hook;
      ok := InsertFirst(hook, Hook);
      if !ok {
        return;
      }
      HookingKeepsForeign(old(chains), unhooked, chains, target);
      ok := Flush(EdoForward);
      if ok {
        HookedIsApplied(old(chains), created, unhooked, chains, lost, target);
      }
    }

    /** `apply_firewall`; `ok == false` is any of its exceptions. `lost` are the tries that failures cost each
        unhook loop, `target` is the chain that was hooked. */
    method ApplyFirewall(publicIface: Option<string>, sysctlOk: bool, peers: PeersByOwner, octets: OctetsByOwner)
      returns (ok: bool, ghost lost: Counts, ghost target: ChainName)
      modifies this
      // it fails only for a reason
      ensures !ok ==> publicIface.None? || !sysctlOk || !InRange(octets) || NoCandidate(old(chains)) || old(faults) < faults
      ensures old(faults) <= faults
      ensures Costs(lost, old(deleteFaults), deleteFaults, old(probeFaults), probeFaults)
      ensures ForeignRulesKept(old(chains), chains)
      ensures ok ==> publicIface.Some? && sysctlOk && InRange(octets)
      ensures ok ==> EdoForward in chains && AppliedFrom(old(chains), chains, lost, chains[EdoForward], target)
      ensures ok ==> Listed(chains[EdoForward], ChainRules(publicIface.value, peers, octets))
      // no failed command but deletions: each rule once, hooked into DOCKER-USER if there is one, else into FORWARD
      ensures ok && faults == old(faults) ==>
                chains[EdoForward] == Filters(KeepFirst(ChainRules(publicIface.value, peers, octets)))
      ensures ok && faults == old(faults) ==> target == if DockerUser in old(chains) then DockerUser else Forward
      ensures ok && faults == old(faults) && DockerUser in old(chains) ==> HookedIn(chains, DockerUser)
      ensures ok && faults == old(faults) && DockerUser !in old(chains) ==> HookedIn(chains, Forward)
      // and then FORWARD carries no hook beside it, where the tries suffice
      ensures ok && faults == old(faults) && DockerUser in old(chains) && Forward in old(chains) &&
              Fits(old(chains), lost) ==>
                CountHooks(chains[Forward]) == 0
      ensures !ok ==>
                || EdoChainOnlyCreated(old(chains), chains)
                || (EdoForward in chains && chains[EdoForward] == [])
                || (publicIface.Some? && InRange(octets) && EdoForward in chains && old(flushFaults) < flushFaults &&
                    PartlyInstalled(chains[EdoForward], ChainRules(publicIface.value, peers, octets)))
    {
      lost, target := multiset{}, Forward;
      if publicIface.None? || !sysctlOk {
        return false, lost, target;
      }
      ok, lost, target := HookEmptyChain();
      if !ok {
        return;
      }
      ghost var hooked := chains;
      FilledIsApplied(old(chains), hooked, hooked, lost, [], target);
      var rules := BuildChainRules(publicIface.value, peers, octets);
      if rules.None? {
        return false, lost, target;
      }
      ok := InstallRules(rules.value);
      FilledIsApplied(old(chains), hooked, chains, lost, chains[EdoForward], target);
    }
  }

  /** The same chains, and none but `chain` with other rules. */
  ghost predicate OthersKept(before: Chains, after: Chains, chain: ChainName) {
    after.Keys == before.Keys && forall c :: c in after && c != chain ==> after[c] == before[c]
  }

  /** EDO_FORWARD is as it was, or absent, or new and empty. */
  ghost predicate EdoChainOnlyCreated(before: Chains, after: Chains) {
    EdoForward in after ==> after[EdoForward] == if EdoForward in before then before[EdoForward] else []
  }

  /** Foreign rules stay, in order; chains the daemon does not hook into are left alone. */
  ghost predicate ForeignRulesKept(before: Chains, after: Chains) {
    && (forall c :: c != EdoForward ==> (c in after <==> c in before))
    && (forall c :: c in after && c != EdoForward ==>
          if IsCandidate(c) then StripHooks(after[c]) == StripHooks(before[c]) else after[c] == before[c])
  }

  /** The chain left by an append that failed and a rollback flush that failed too, or succeeded. */
  ghost predicate PartlyInstalled(edo: Chain, rules: seq<Rule>) {
    exists n :: 0 <= n <= |rules| && Listed(edo, rules[..n])
  }

  /** The chain holds the list, perhaps without some later copies of a rule. */
  ghost predicate Listed(edo: Chain, rules: seq<Rule>) {
    exists kept: seq<Rule> :: edo == Filters(kept) && Thinned(kept, rules)
  }

  lemma ListedStarts(rules: seq<Rule>)
    ensures Listed([], rules[..0]) && Filters(KeepFirst(rules[..0])) == []
  {
    var none: seq<Rule> := [];
    assert Filters(none) == [] && Thinned(none, rules[..0]);
  }

  lemma ListedIsPart(edo: Chain, rules: seq<Rule>, n: nat)
    requires n <= |rules| && (Listed(edo, rules[..n]) || (n == 0 && edo == []))
    ensures PartlyInstalled(edo, rules)
  {
    ListedStarts(rules);
  }

  lemma ListedStep(edo: Chain, rules: seq<Rule>, i: nat)
    requires i < |rules| && Listed(edo, rules[..i])
    ensures Listed(edo + [Filter(rules[i])], rules[..i + 1])
    ensures Filter(rules[i]) in edo ==> Listed(edo, rules[..i + 1])
    ensures edo == Filters(KeepFirst(rules[..i])) ==>
              Filters(KeepFirst(rules[..i + 1])) == if Filter(rules[i]) in edo then edo else edo + [Filter(rules[i])]
  {
    var kept: seq<Rule> :| edo == Filters(kept) && Thinned(kept, rules[..i]);
    ThinnedStep(kept, rules, i);
    assert Filters(kept + [rules[i]]) == edo + [Filter(rules[i])];
    if Filter(rules[i]) in edo {
      var j :| 0 <= j < |edo| && edo[j] == Filter(rules[i]);
      assert kept[j] == rules[i];
    }
    AppendStep(rules, i);
  }

  /** Every candidate chain unhooked, every other chain untouched. */
  ghost predicate UnhookedAll(before: Chains, after: Chains, lost: Counts) {
    && after.Keys == before.Keys
    && forall c :: c in after ==>
         if IsCandidate(c) then Unhooked(before[c], after[c], lost[c]) else after[c] == before[c]
  }

  /** The candidates in `done` unhooked, every other chain untouched. */
  ghost predicate UnhookedSome(before: Chains, after: Chains, lost: Counts, done: seq<ChainName>) {
    && after.Keys == before.Keys
    && (forall c :: c !in done ==> lost[c] == 0)
    && forall c :: c in after ==>
         if c in done then Unhooked(before[c], after[c], lost[c]) else after[c] == before[c]
  }

  lemma UnhookedNone(chains: Chains)
    ensures UnhookedSome(chains, chains, multiset{}, [])
  {}

  lemma UnhookedOneMore(before: Chains, current: Chains, after: Chains, lost: Counts, done: seq<ChainName>,
                        chain: ChainName, one: nat)
    requires UnhookedSome(before, current, lost, done) && chain !in done && OthersKept(current, after, chain)
    requires chain in current ==> Unhooked(current[chain], after[chain], one)
    ensures UnhookedSome(before, after, lost[chain := one], done + [chain])
  {}

  /** The tables after a successful apply, given the tries lost in each chain and the chain hooked. */
  ghost predicate AppliedFrom(before: Chains, after: Chains, lost: Counts, edo: Chain, target: ChainName) {
    && after.Keys == before.Keys + {EdoForward} && after[EdoForward] == edo
    && target in before && IsCandidate(target)
    && forall c :: c in after && c != EdoForward ==>
         if c == target then Rehooked(before[c], after[c], lost[c])
         else if IsCandidate(c) then Unhooked(before[c], after[c], lost[c])
         else after[c] == before[c]
  }

  lemma UnhookingKeepsForeign(before: Chains, created: Chains, after: Chains, lost: Counts)
    requires created == before || (EdoForward !in before && created == before[EdoForward := []])
    requires UnhookedAll(created, after, lost)
    ensures ForeignRulesKept(before, after) && EdoChainOnlyCreated(before, after)
  {}

  lemma HookingKeepsForeign(before: Chains, unhooked: Chains, hooked: Chains, target: ChainName)
    requires ForeignRulesKept(before, unhooked) && EdoChainOnlyCreated(before, unhooked)
    requires target in unhooked && IsCandidate(target)
    requires hooked == unhooked[target := [Hook] + unhooked[target]]
    ensures ForeignRulesKept(before, hooked) && EdoChainOnlyCreated(before, hooked)
  {
    assert ([Hook] + unhooked[target])[1..] == unhooked[target];
  }

  lemma HookedIsApplied(before: Chains, created: Chains, unhooked: Chains, after: Chains, lost: Counts, target: ChainName)
    requires created == before || created == before[EdoForward := []]
    requires UnhookedAll(created, unhooked, lost) && IsCandidate(target)
    requires EdoForward in unhooked && target in unhooked
    requires after == unhooked[target := [Hook] + unhooked[target]][EdoForward := []]
    ensures AppliedFrom(before, after, lost, [], target)
  {
    assert ([Hook] + unhooked[target])[1..] == unhooked[target];
  }

  /** Whatever EDO_FORWARD is filled with, the other chains are as the hooking left them. */
  lemma FilledIsApplied(before: Chains, hooked: Chains, after: Chains, lost: Counts, edo: Chain, target: ChainName)
    requires AppliedFrom(before, hooked, lost, [], target) && after == hooked[EdoForward := edo]
    ensures AppliedFrom(before, after, lost, edo, target) && ForeignRulesKept(before, after) && HookedIn(after, target)
    ensures target == DockerUser && Forward in before && Fits(before, lost) ==> CountHooks(after[Forward]) == 0
  {
    if target == DockerUser && Forward in before && Fits(before, lost) {
      UnhookedIsCleanIff(before[Forward], after[Forward], lost[Forward]);
    }
  }

  lemma AppendStep(rules: seq<Rule>, i: nat)
    requires i < |rules|
    ensures var done := Filters(KeepFirst(rules[..i]));
            Filters(KeepFirst(rules[..i + 1])) ==
            if Filter(rules[i]) in done then done else done + [Filter(rules[i])]
  {
    assert rules[..i + 1][..i] == rules[..i];
    var kept := KeepFirst(rules[..i]);
    if rules[i] in kept {
      var j :| 0 <= j < |kept| && kept[j] == rules[i];
      assert Filters(kept)[j] == Filter(rules[i]);
    }
  }

  /** Nothing to hook into. */
  predicate NoCandidate(chains: Chains) { DockerUser !in chains && Forward !in chains }

  /** A candidate chain that EDO_FORWARD is hooked into first. */
  ghost predicate HookedIn(chains: Chains, c: ChainName) {
    IsCandidate(c) && c in chains && chains[c] != [] && chains[c][0] == Hook
  }

  /** EDO_FORWARD holds the compiled list, hooked first in a candidate chain. */
  ghost predicate Installed(chains: Chains, target: ChainName, publicIface: string, peers: PeersByOwner,
                            octets: OctetsByOwner)
    requires InRange(octets)
  {
    && EdoForward in chains && Listed(chains[EdoForward], ChainRules(publicIface, peers, octets))
    && HookedIn(chains, target)
  }

  // ----- what the installed tables decide

  /** First rule that decides; `decide` gives each rule's verdict on one packet. */
  ghost function Traverse(s: Chain, decide: KernelRule -> Verdict): Verdict {
    if s == [] then FallThrough
    else if decide(s[0]) != FallThrough then decide(s[0])
    else Traverse(s[1..], decide)
  }

  /** `decide` treats the daemon's filters as the kernel does and a hook as a run of EDO_FORWARD. */
  ghost predicate Decides(chains: Chains, decide: KernelRule -> Verdict, p: Packet) {
    && (forall r: Rule :: r.Valid() ==> decide(Filter(r)) == ChainVerdict([r], p))
    && (EdoForward in chains ==> decide(Hook) == Traverse(chains[EdoForward], decide))
  }

  lemma {:induction false} TraverseFilters(rules: seq<Rule>, decide: KernelRule -> Verdict, p: Packet)
    requires ValidRules(rules)
    requires forall r: Rule :: r.Valid() ==> decide(Filter(r)) == ChainVerdict([r], p)
    ensures Traverse(Filters(rules), decide) == ChainVerdict(rules, p)
  {
    if rules != [] {
      assert Filters(rules)[1..] == Filters(rules[1..]);
      TraverseFilters(rules[1..], decide, p);
      VerdictOfRule(rules[0], p);
    }
  }

  lemma {:induction false} FallThroughHooksAreInert(s: Chain, decide: KernelRule -> Verdict)
    requires decide(Hook) == FallThrough
    ensures Traverse(s, decide) == Traverse(StripHooks(s), decide)
  {
    if s != [] {
      FallThroughHooksAreInert(s[1..], decide);
      if s[0] != Hook {
        assert ([s[0]] + StripHooks(s[1..]))[1..] == StripHooks(s[1..]);
      }
    }
  }

  /** Once installed, the chain that was hooked decides a packet as the daemon's meaning does where that
      decides, and otherwise as the foreign rules alone would: leftover hooks change nothing. */
  lemma InstalledDecides(chains: Chains, target: ChainName, publicIface: string, peers: PeersByOwner, octets: OctetsByOwner,
                         decide: KernelRule -> Verdict, p: Packet)
    requires InRange(octets) && Installed(chains, target, publicIface, peers, octets) && Decides(chains, decide, p)
    ensures Traverse(chains[EdoForward], decide) == Meaning(publicIface, peers, octets, p)
    ensures Traverse(chains[target], decide) ==
            if Meaning(publicIface, peers, octets, p) != FallThrough then Meaning(publicIface, peers, octets, p)
            else Traverse(StripHooks(chains[target]), decide)
  {
    var rules := ChainRules(publicIface, peers, octets);
    ChainMeaning(publicIface, peers, octets, p);
    var kept: seq<Rule> :| chains[EdoForward] == Filters(kept) && Thinned(kept, rules);
    ThinnedPreservesVerdict(kept, rules, p);
    TraverseFilters(kept, decide, p);
    if decide(Hook) == FallThrough {
      FallThroughHooksAreInert(chains[target], decide);
    }
  }

  // ----- refinement of a plain rebuild

  function TotalHooks(chains: Chains): nat {
    (if DockerUser in chains then CountHooks(chains[DockerUser]) else 0) +
    (if Forward in chains then CountHooks(chains[Forward]) else 0)
  }

  function Fronted(hook: bool, s: Chain): Chain {
    if hook then [Hook] + s else s
  }

  /** The rebuild without any history: no stale hooks, one new hook, the given chain. */
  function Rebuilt(chains: Chains, edo: Chain, target: ChainName): Chains {
    map c | c in chains.Keys + {EdoForward} ::
      if c == EdoForward then edo
      else if !IsCandidate(c) then chains[c]
      else Fronted(c == target, StripHooks(chains[c]))
  }

  /** In every candidate chain stale hooks and lost tries number at most five together. */
  ghost predicate Fits(before: Chains, lost: Counts) {
    forall c :: c in before && IsCandidate(c) ==> CountHooks(before[c]) + lost[c] <= 5
  }

  /** Exactly one hook is left, and the result is the plain rebuild, if and only if in every
      candidate chain the stale hooks and the tries lost to failures number at most five together. */
  lemma OneHookIff(before: Chains, after: Chains, lost: Counts, edo: Chain, target: ChainName)
    requires AppliedFrom(before, after, lost, edo, target)
    ensures TotalHooks(after) == 1 <==> Fits(before, lost)
    ensures Fits(before, lost) ==> after == Rebuilt(before, edo, target)
  {
    forall c | c in before && IsCandidate(c)
      ensures var fits := CountHooks(before[c]) + lost[c] <= 5;
              var own := if c == target then 1 else 0;
              (CountHooks(after[c]) == own <==> fits) && CountHooks(after[c]) >= own &&
              (fits ==> after[c] == Rebuilt(before, edo, target)[c])
    {
      OneChainIff(before[c], after[c], lost[c], c == target);
    }
  }

  lemma OneChainIff(before: Chain, after: Chain, lost: nat, target: bool)
    requires if target then Rehooked(before, after, lost) else Unhooked(before, after, lost)
    ensures var fits := CountHooks(before) + lost <= 5; var own := if target then 1 else 0;
            (CountHooks(after) == own <==> fits) && CountHooks(after) >= own &&
            (fits ==> after == Fronted(target, StripHooks(before)))
  {
    if target {
      UnhookedIsCleanIff(before, after[1..], lost);
      assert after == [Hook] + after[1..];
    } else {
      UnhookedIsCleanIff(before, after, lost);
    }
  }

  /** One stale hook and one failed check: nothing was deleted and no deletion failed, yet two hooks remain. */
  lemma FailedCheckLeavesTwoHooks(target: ChainName)
    requires IsCandidate(target)
    ensures var before: Chains := map[target := [Hook]];
            var after: Chains := map[target := [Hook, Hook], EdoForward := []];
            var lost := multiset{}[target := 5];
            && AppliedFrom(before, after, lost, [], target) && !Fits(before, lost) && TotalHooks(after) == 2
            && CostsFor(lost[target], 0, 0, 0, 1)
  {
    assert [Hook, Hook][1..] == [Hook];
    assert CountHooks([Hook]) == 1 && CountHooks([Hook, Hook]) == 2;
  }

  lemma FrontedOnce(hook: bool, s: Chain)
    ensures CountHooks(Fronted(hook, StripHooks(s))) == if hook then 1 else 0
    ensures StripHooks(Fronted(hook, StripHooks(s))) == StripHooks(s)
  {
    StrippedHasNoHooks(s);
    if hook {
      assert ([Hook] + StripHooks(s))[1..] == StripHooks(s);
    }
  }

  /** The plain rebuild done twice is done once. */
  lemma RebuiltTwice(chains: Chains, edo: Chain, target: ChainName)
    requires target in chains && IsCandidate(target)
    ensures Rebuilt(Rebuilt(chains, edo, target), edo, target) == Rebuilt(chains, edo, target)
    ensures TotalHooks(Rebuilt(chains, edo, target)) == 1
  {
    var once := Rebuilt(chains, edo, target);
    forall c | c in chains && IsCandidate(c)
      ensures CountHooks(once[c]) == (if c == target then 1 else 0) && StripHooks(once[c]) == StripHooks(chains[c])
    {
      FrontedOnce(c == target, chains[c]);
    }
    assert once.Keys == chains.Keys + {EdoForward};
  }

  /** Applying twice is applying once: after a clean first apply, a second one changes nothing if and only if
      it hooks the same chain, installs the same list, and the tries it lost leave room, as they do when
      nothing fails. */
  lemma AppliedTwice(before: Chains, mid: Chains, after: Chains, first: Counts, second: Counts, edo: Chain, edo': Chain,
                     target: ChainName, target': ChainName)
    requires AppliedFrom(before, mid, first, edo, target) && Fits(before, first)
    requires AppliedFrom(mid, after, second, edo', target')
    ensures after == mid <==> target' == target && edo' == edo && Fits(mid, second)
    ensures TotalHooks(mid) == 1 && (second == multiset{} ==> Fits(mid, second))
  {
    OneHookIff(before, mid, first, edo, target);
    OneHookIff(mid, after, second, edo', target');
    RebuiltTwice(before, edo, target);
    forall c | c in mid && IsCandidate(c)
      ensures CountHooks(mid[c]) == if c == target then 1 else 0
    {
      FrontedOnce(c == target, before[c]);
    }
    if target' != target {
      OneChainIff(mid[target'], after[target'], second[target'], true);
    }
  }

  lemma AppliedIsInstalled(before: Chains, after: Chains, lost: Counts, target: ChainName,
                           publicIface: string, peers: PeersByOwner, octets: OctetsByOwner)
    requires InRange(octets) && EdoForward in after && AppliedFrom(before, after, lost, after[EdoForward], target)
    requires Listed(after[EdoForward], ChainRules(publicIface, peers, octets))
    ensures Installed(after, target, publicIface, peers, octets)
  {}
}

/** What the CASS decision cascade (`PolicyEngine.swift`) decides, said of the policy's rules and the
    leases as sets: which rule speaks, which lease counts, and when evaluation throws. */
module PolicyLaws {
  import opened Wrappers
  import opened Ordering
  import opened PolicyModels
  import opened PolicyEngine

  // ---------------------------------------------------------------- the first rule by id

  /** Of the elements that hit, the one before all others. */
  ghost predicate IsFirst<T(!new)>(s: seq<T>, less: (T, T) -> bool, hit: T -> bool, r: T) {
    && r in s && hit(r)
    && forall q :: q in s && hit(q) && q != r ==> less(r, q)
  }

  lemma {:induction false} FirstExists<T(!new)>(s: seq<T>, less: (T, T) -> bool, hit: T -> bool) returns (r: T)
    requires Ascending(s, less) && exists q :: q in s && hit(q)
    ensures IsFirst(s, less, hit, r)
  {
    if hit(s[0]) {
      r := s[0];
    } else {
      r := FirstExists(s[1..], less, hit);
    }
  }

  lemma FirstInTail<T(!new)>(s: seq<T>, less: (T, T) -> bool, hit: T -> bool, r: T)
    requires Ascending(s, less) && IsAsymmetric(less) && IsFirst(s, less, hit, r)
    ensures hit(s[0]) <==> r == s[0]
    ensures r != s[0] ==> IsFirst(s[1..], less, hit, r)
  {
    if r != s[0] {
      var i :| 0 <= i < |s| && s[i] == r;
      assert less(s[0], s[i]);
      assert r in s[1..];
    }
  }

  lemma FirstSorted<T(!new)>(s: seq<T>, less: (T, T) -> bool, hit: T -> bool)
    ensures forall r :: IsFirst(s, less, hit, r) <==> IsFirst(Sort(s, less), less, hit, r)
  {
    SortPermutes(s, less);
  }

  // ---------------------------------------------------------------- the best lease

  /** The argument is the path itself, or contains it. */
  predicate Mentions(host: Host, argument: string, path: string) {
    (argument == path && path != "" && path[0] in {'/', '~', '.'}) || path in host.fragments(argument)
  }

  /** The paths an event is about: target, source, path-like arguments and paths inside arguments. */
  predicate IsAbout(host: Host, event: RuntimeEvent, path: string) {
    || event.targetPath == Some(path)
    || event.sourcePath == Some(path)
    || (event.argv.Some? && exists a :: a in event.argv.value && Mentions(host, a, path))
  }

  lemma TokenMentions(host: Host, argument: string, path: string)
    ensures path in Elements(TokenPaths(host, argument)) <==> Mentions(host, argument, path)
  {
    if argument != "" {
      var c := argument[0];
      assert c in "/~." <==> c == "/~."[0] || c == "/~."[1] || c == "/~."[2];
    }
  }

  lemma {:induction false} TokensAbout(host: Host, argv: seq<string>, path: string)
    ensures path in TokenCandidates(host, argv) <==> exists a :: a in argv && Mentions(host, a, path)
  {
    if argv != [] {
      var init, last := argv[..|argv| - 1], argv[|argv| - 1];
      TokensAbout(host, init, path);
      assert argv == init + [last];
      TokenMentions(host, last, path);
      assert path in TokenCandidates(host, argv) <==> path in TokenCandidates(host, init) || Mentions(host, last, path);
    }
  }

  /** The lease candidates of an event are exactly the paths it is about. */
  lemma CandidatesExactly(host: Host, event: RuntimeEvent, path: string)
    ensures path in LeaseCandidates(host, event) <==> IsAbout(host, event, path)
  {
    if event.argv.Some? { TokensAbout(host, event.argv.value, path); }
  }

  /** A lease of the profile, active from its creation until before its expiry, for the operation and a
      path of the event. */
  ghost predicate Counts(host: Host, profile: Profile, now: int, event: RuntimeEvent, lease: Lease) {
    && lease.profile == profile && event.operation in lease.operations
    && host.date(lease.createdAt).Some? && host.date(lease.createdAt).value <= now
    && host.date(lease.expiresAt).Some? && now < host.date(lease.expiresAt).value
    && exists p :: p in lease.pathPatterns &&
         (p == "*" || exists c :: IsAbout(host, event, c) && host.pathMatches(p, c))
  }

  lemma CountsMeans(host: Host, profile: Profile, now: int, event: RuntimeEvent, lease: Lease)
    ensures Counts(host, profile, now, event, lease) <==>
              Usable(host, profile, lease, now) && LeaseMatches(host, event, lease)
  {
    forall c ensures c in LeaseCandidates(host, event) <==> IsAbout(host, event, c) {
      CandidatesExactly(host, event, c);
    }
  }

  /** Characters of a pattern other than `*` and `?`. */
  function Literals(pattern: string): int {
    |pattern| - multiset(pattern)['*'] - multiset(pattern)['?']
  }

  lemma {:induction false} LiteralsCounted(pattern: string)
    ensures LiteralCount(pattern) == Literals(pattern)
  {
    if pattern != "" {
      LiteralsCounted(pattern[1..]);
      assert pattern == [pattern[0]] + pattern[1..];
    }
  }

  /** Some pattern of `a` has more literal characters than every pattern of `b`. */
  ghost predicate MoreSpecific(a: Lease, b: Lease) {
    exists p :: p in a.pathPatterns && Literals(p) > 0 && forall q :: q in b.pathPatterns ==> Literals(p) > Literals(q)
  }

  lemma MoreSpecificMeans(a: Lease, b: Lease)
    ensures MoreSpecific(a, b) <==> MaxLiterals(a.pathPatterns) > MaxLiterals(b.pathPatterns)
  {
    MaxLiteralsMeans(a.pathPatterns);
    MaxLiteralsMeans(b.pathPatterns);
    forall p ensures LiteralCount(p) == Literals(p) { LiteralsCounted(p); }
    if MaxLiterals(a.pathPatterns) > MaxLiterals(b.pathPatterns) {
      var p :| p in a.pathPatterns && LiteralCount(p) == MaxLiterals(a.pathPatterns);
      assert Literals(p) > 0;
    }
  }

  /** More specific first, then sooner to expire, then created earlier, then by id. */
  ghost predicate Outranks(a: Lease, b: Lease) {
    MoreSpecific(a, b) ||
    (!MoreSpecific(b, a) &&
     (StringLess(a.expiresAt, b.expiresAt) ||
      (a.expiresAt == b.expiresAt &&
       (StringLess(a.createdAt, b.createdAt) ||
        (a.createdAt == b.createdAt && StringLess(a.leaseID, b.leaseID))))))
  }

  lemma PrecedenceExactly(a: Lease, b: Lease)
    ensures LeasePrecedes(a, b) <==> Outranks(a, b)
  {
    MoreSpecificMeans(a, b);
    MoreSpecificMeans(b, a);
    StringTotal(a.expiresAt, b.expiresAt);
    StringTotal(a.createdAt, b.createdAt);
  }

  /** The lease that counts and outranks every other one that counts; none if none counts. */
  ghost predicate IsBestLease(host: Host, profile: Profile, now: int, event: RuntimeEvent, leases: seq<Lease>,
                              best: Option<Lease>) {
    match best
    case None => forall l :: l in leases ==> !Counts(host, profile, now, event, l)
    case Some(b) =>
      && b in leases && Counts(host, profile, now, event, b)
      && forall l :: l in leases && Counts(host, profile, now, event, l) && l != b ==> Outranks(b, l)
  }

  /** The lease a decision uses is the best one. */
  lemma BestLeaseByKeys(host: Host, policy: PolicyDocument, now: int, event: RuntimeEvent, leases: seq<Lease>,
                        best: Option<Lease>)
    requires DistinctLeaseIds(leases)
    ensures BestFor(host, policy, now, event, leases) == best <==>
              IsBestLease(host, policy.profile, now, event, leases, best)
  {
    var active := InForce(host, policy.profile, leases, now);
    InForceMeans(host, policy.profile, leases, now);
    BestLeaseExactly(host, event, active);
    forall l ensures Counts(host, policy.profile, now, event, l) <==>
                       Usable(host, policy.profile, l, now) && LeaseMatches(host, event, l) {
      CountsMeans(host, policy.profile, now, event, l);
    }
    forall a, b ensures LeasePrecedes(a, b) <==> Outranks(a, b) { PrecedenceExactly(a, b); }
    if best.Some? { assert MatchingLease(host, event, active) == best <==> IsBest(host, event, active, best.value); }
  }

  // ---------------------------------------------------------------- governed commands

  lemma {:induction false} JoinedExtends(argv: seq<string>, last: string)
    ensures Joined([last]) == last
    ensures argv != [] ==> Joined(argv + [last]) == Joined(argv) + " " + last
  {
    if argv != [] {
      JoinedExtends(argv[1..], last);
      assert (argv + [last])[1..] == argv[1..] + [last];
      if |argv| == 1 { assert argv[1..] + [last] == [last]; }
    }
  }

  /** The expression of a governed command is found, or is invalid. */
  predicate CommandHit(host: Host, joined: string, rule: CommandRule) {
    host.regexFinds(rule.commandRegex, joined) != Some(false)
  }

  /** A matching lease allows; otherwise the rule's own action. */
  function CommandSays(rule: CommandRule, best: Option<Lease>, joined: string): Decision {
    match best
    case Some(l) => Decision(Allow, LeaseOverridesCommand, Some(rule.id), Some(l.leaseID), Some(joined), false)
    case None => Decision(rule.action, RuleSays(rule.reason), Some(rule.id), None, Some(joined), false)
  }

  lemma {:induction false} CommandScanMeans(host: Host, rules: seq<CommandRule>, joined: string, best: Option<Lease>)
    requires Ascending(rules, CommandRuleLess) && IsAsymmetric(CommandRuleLess)
    ensures forall r :: IsFirst(rules, CommandRuleLess, q => CommandHit(host, joined, q), r) ==>
              CommandScan(host, rules, joined, best) ==
                if host.regexFinds(r.commandRegex, joined).None? then Failure(r.commandRegex)
                else Success(Some(CommandSays(r, best, joined)))
    ensures (forall q :: q in rules ==> !CommandHit(host, joined, q)) ==>
              CommandScan(host, rules, joined, best) == Success(None)
  {
    var hit := q => CommandHit(host, joined, q);
    if rules != [] {
      CommandScanMeans(host, rules[1..], joined, best);
      forall r | IsFirst(rules, CommandRuleLess, hit, r)
        ensures CommandScan(host, rules, joined, best) ==
                  if host.regexFinds(r.commandRegex, joined).None? then Failure(r.commandRegex)
                  else Success(Some(CommandSays(r, best, joined)))
      {
        FirstInTail(rules, CommandRuleLess, hit, r);
      }
      assert forall q :: q in rules[1..] ==> q in rules;
      assert rules[0] in rules;
    }
  }

  /** The event is a command with arguments. */
  predicate IsCommand(event: RuntimeEvent) {
    event.operation == Exec && event.argv.Some? && event.argv.value != []
  }

  /** Of the governed commands whose expression is found or invalid, the one with the least id. */
  ghost predicate FirstCommand(host: Host, policy: PolicyDocument, event: RuntimeEvent, rule: CommandRule) {
    && IsCommand(event) && rule in policy.governedCommands
    && CommandHit(host, Joined(event.argv.value), rule)
    && forall q :: q in policy.governedCommands && CommandHit(host, Joined(event.argv.value), q) && q != rule ==>
         StringLess(rule.id, q.id)
  }

  ghost predicate NoCommand(host: Host, policy: PolicyDocument, event: RuntimeEvent) {
    IsCommand(event) ==>
      forall q :: q in policy.governedCommands ==> !CommandHit(host, Joined(event.argv.value), q)
  }

  lemma SomeCommand(host: Host, policy: PolicyDocument, event: RuntimeEvent) returns (rule: CommandRule)
    requires DistinctRuleIds(policy) && !NoCommand(host, policy, event)
    ensures FirstCommand(host, policy, event, rule)
  {
    var joined := Joined(event.argv.value);
    var hit := q => CommandHit(host, joined, q);
    var rules := Sort(policy.governedCommands, CommandRuleLess);
    RuleOrdersStrict();
    RulesComparable(policy);
    SortAscending(policy.governedCommands, CommandRuleLess);
    SortPermutes(policy.governedCommands, CommandRuleLess);
    var q :| q in policy.governedCommands && CommandHit(host, joined, q);
    assert q in rules && hit(q);
    rule := FirstExists(rules, CommandRuleLess, hit);
    forall o | o in policy.governedCommands && CommandHit(host, joined, o) && o != rule
      ensures StringLess(rule.id, o.id)
    {
      assert o in rules && hit(o);
    }
  }

  lemma CommandVerdictMeans(host: Host, policy: PolicyDocument, event: RuntimeEvent, best: Option<Lease>)
    requires DistinctRuleIds(policy)
    ensures var v := CommandVerdict(host, Normalized(policy), event, best);
            && (NoCommand(host, policy, event) ==> v == Success(None))
            && forall r :: FirstCommand(host, policy, event, r) ==>
                 v == if host.regexFinds(r.commandRegex, Joined(event.argv.value)).None? then Failure(r.commandRegex)
                      else Success(Some(CommandSays(r, best, Joined(event.argv.value))))
  {
    if IsCommand(event) {
      var joined := Joined(event.argv.value);
      var hit := q => CommandHit(host, joined, q);
      var rules := Sort(policy.governedCommands, CommandRuleLess);
      RuleOrdersStrict();
      RulesComparable(policy);
      SortAscending(policy.governedCommands, CommandRuleLess);
      SortPermutes(policy.governedCommands, CommandRuleLess);
      CommandScanMeans(host, rules, joined, best);
      forall r | FirstCommand(host, policy, event, r) ensures IsFirst(rules, CommandRuleLess, hit, r) {
        assert r in rules;
      }
    }
  }

  /** Which governed command decides: with distinct ids, a decision is that of rule `rule` under the best
      lease exactly when its expression is found in the command and every other rule whose expression
      is found or invalid has a greater id. */
  lemma CommandRuleExactly(host: Host, policy: PolicyDocument, now: int, event: RuntimeEvent,
                           verifier: Option<Verifier>, leases: seq<Lease>, best: Option<Lease>, rule: CommandRule)
    requires DistinctRuleIds(policy) && DistinctLeaseIds(leases)
    requires IsBestLease(host, policy.profile, now, event, leases, best)
    requires rule in policy.governedCommands && IsCommand(event) && !NoCommand(host, policy, event)
    ensures Decide(host, policy, now, event, verifier, leases)
              == Success(CommandSays(rule, best, Joined(event.argv.value))) <==>
            && FirstCommand(host, policy, event, rule)
            && host.regexFinds(rule.commandRegex, Joined(event.argv.value)).Some?
  {
    var first := SomeCommand(host, policy, event);
    FirstCommandDecides(host, policy, now, event, verifier, leases, best, first);
    SameCommandId(policy, first, rule);
    StringTotal(first.id, rule.id);
    if first != rule {
      assert CommandSays(first, best, Joined(event.argv.value)).matchedRuleID == Some(first.id);
      assert CommandSays(rule, best, Joined(event.argv.value)).matchedRuleID == Some(rule.id);
    }
  }

  lemma FirstCommandDecides(host: Host, policy: PolicyDocument, now: int, event: RuntimeEvent,
                            verifier: Option<Verifier>, leases: seq<Lease>, best: Option<Lease>, first: CommandRule)
    requires DistinctRuleIds(policy) && DistinctLeaseIds(leases)
    requires IsBestLease(host, policy.profile, now, event, leases, best) && FirstCommand(host, policy, event, first)
    ensures var joined, r := Joined(event.argv.value), Decide(host, policy, now, event, verifier, leases);
            if host.regexFinds(first.commandRegex, joined).Some? then r == Success(CommandSays(first, best, joined))
            else r == Failure(first.commandRegex)
  {
    BestLeaseByKeys(host, policy, now, event, leases, best);
    CommandVerdictMeans(host, policy, event, best);
  }

  lemma SameCommandId(policy: PolicyDocument, a: CommandRule, b: CommandRule)
    requires DistinctRuleIds(policy) && a in policy.governedCommands && b in policy.governedCommands
    ensures a.id == b.id ==> a == b
  {
  }

  // ---------------------------------------------------------------- governed paths

  /** The rule lists the event's operation and its pattern matches the target. */
  predicate Governs(host: Host, event: RuntimeEvent, rule: PathRule) {
    && event.targetPath.Some? && event.operation in rule.operations
    && host.pathMatches(rule.pathPattern, event.targetPath.value)
  }

  function PathSays(rule: PathRule, best: Option<Lease>, target: Option<string>): Decision {
    match best
    case Some(l) => Decision(Allow, LeaseOverridesPath, Some(rule.id), Some(l.leaseID), target, false)
    case None => Decision(rule.action, RuleSays(rule.reason), Some(rule.id), None, target, false)
  }

  lemma {:induction false} FirstPathMeans(host: Host, rules: seq<PathRule>, event: RuntimeEvent)
    requires Ascending(rules, PathRuleLess) && IsAsymmetric(PathRuleLess) && event.targetPath.Some?
    ensures forall r :: IsFirst(rules, PathRuleLess, q => Governs(host, event, q), r) ==>
              FirstPathRule(host, rules, event.operation, event.targetPath.value) == Some(r)
    ensures (forall q :: q in rules ==> !Governs(host, event, q)) ==>
              FirstPathRule(host, rules, event.operation, event.targetPath.value) == None
  {
    if rules != [] {
      FirstPathMeans(host, rules[1..], event);
      forall r | IsFirst(rules, PathRuleLess, q => Governs(host, event, q), r)
        ensures FirstPathRule(host, rules, event.operation, event.targetPath.value) == Some(r)
      {
        FirstInTail(rules, PathRuleLess, q => Governs(host, event, q), r);
      }
      assert forall q :: q in rules[1..] ==> q in rules;
      assert rules[0] in rules;
    }
  }

  /** Of the governed paths that apply, the one with the least id. */
  ghost predicate FirstPath(host: Host, policy: PolicyDocument, event: RuntimeEvent, rule: PathRule) {
    && rule in policy.governedPaths && Governs(host, event, rule)
    && forall q :: q in policy.governedPaths && Governs(host, event, q) && q != rule ==> StringLess(rule.id, q.id)
  }

  ghost predicate NoPath(host: Host, policy: PolicyDocument, event: RuntimeEvent) {
    forall q :: q in policy.governedPaths ==> !Governs(host, event, q)
  }

  lemma PathRuleMeans(host: Host, policy: PolicyDocument, event: RuntimeEvent)
    requires DistinctRuleIds(policy)
    ensures NoPath(host, policy, event) ==> PathRuleFor(host, Normalized(policy), event) == None
    ensures forall r :: FirstPath(host, policy, event, r) ==> PathRuleFor(host, Normalized(policy), event) == Some(r)
    ensures !NoPath(host, policy, event) ==> exists r :: FirstPath(host, policy, event, r)
  {
    var hit := q => Governs(host, event, q);
    var rules := Sort(policy.governedPaths, PathRuleLess);
    RuleOrdersStrict();
    RulesComparable(policy);
    SortAscending(policy.governedPaths, PathRuleLess);
    SortPermutes(policy.governedPaths, PathRuleLess);
    if event.targetPath.Some? { FirstPathMeans(host, rules, event); }
    forall r ensures FirstPath(host, policy, event, r) <==> IsFirst(rules, PathRuleLess, hit, r) {}
    if q :| q in policy.governedPaths && Governs(host, event, q) {
      assert q in rules && hit(q);
      var r := FirstExists(rules, PathRuleLess, hit);
      assert FirstPath(host, policy, event, r);
    }
  }

  /** Which governed path decides: with distinct ids and no governed command found, a decision is that of
      rule `rule` under the best lease exactly when the rule lists the operation, its pattern matches
      the target, and every other such rule has a greater id. */
  lemma PathRuleExactly(host: Host, policy: PolicyDocument, now: int, event: RuntimeEvent, verifier: Option<Verifier>,
                        leases: seq<Lease>, best: Option<Lease>, rule: PathRule)
    requires DistinctRuleIds(policy) && DistinctLeaseIds(leases)
    requires IsBestLease(host, policy.profile, now, event, leases, best)
    requires rule in policy.governedPaths && NoCommand(host, policy, event)
    ensures Decide(host, policy, now, event, verifier, leases) == Success(PathSays(rule, best, event.targetPath)) <==>
              FirstPath(host, policy, event, rule)
  {
    if NoPath(host, policy, event) {
      NoPathDecides(host, policy, now, event, verifier, leases, best);
    } else {
      PathRuleMeans(host, policy, event);
      var first :| FirstPath(host, policy, event, first);
      FirstPathDecides(host, policy, now, event, verifier, leases, best, first);
      SamePathId(policy, first, rule);
      StringTotal(first.id, rule.id);
      if first != rule {
        assert PathSays(first, best, event.targetPath).matchedRuleID == Some(first.id);
        assert PathSays(rule, best, event.targetPath).matchedRuleID == Some(rule.id);
      }
    }
  }

  lemma FirstPathDecides(host: Host, policy: PolicyDocument, now: int, event: RuntimeEvent, verifier: Option<Verifier>,
                         leases: seq<Lease>, best: Option<Lease>, first: PathRule)
    requires DistinctRuleIds(policy) && DistinctLeaseIds(leases) && NoCommand(host, policy, event)
    requires IsBestLease(host, policy.profile, now, event, leases, best) && FirstPath(host, policy, event, first)
    ensures Decide(host, policy, now, event, verifier, leases) == Success(PathSays(first, best, event.targetPath))
  {
    BestLeaseByKeys(host, policy, now, event, leases, best);
    CommandVerdictMeans(host, policy, event, best);
    PathRuleMeans(host, policy, event);
  }

  lemma NoPathDecides(host: Host, policy: PolicyDocument, now: int, event: RuntimeEvent, verifier: Option<Verifier>,
                      leases: seq<Lease>, best: Option<Lease>)
    requires DistinctRuleIds(policy) && DistinctLeaseIds(leases) && NoCommand(host, policy, event)
    requires IsBestLease(host, policy.profile, now, event, leases, best) && NoPath(host, policy, event)
    ensures var r := Decide(host, policy, now, event, verifier, leases);
            r.Success? ==> !r.value.reason.LeaseOverridesPath? && !r.value.reason.RuleSays?
  {
    PastPaths(host, policy, now, event, verifier, leases, best);
    if NoVerification(host, policy, event) {
      assert Otherwise(host, policy, event).matchedRuleID == None;
    } else {
      ApplicableMeans(host, policy, event);
      var first :| FirstVerification(host, policy, event, first);
      OwnReasons(host, event, event.targetPath.value, verifier, best, first);
    }
  }

  lemma OwnReasons(host: Host, event: RuntimeEvent, target: string, verifier: Option<Verifier>, best: Option<Lease>,
                   rule: VerificationRule)
    ensures var r := VerificationOutcome(host, event, target, verifier, best, rule);
            r.Success? ==> !r.value.reason.LeaseOverridesPath? && !r.value.reason.RuleSays?
  {
  }


  lemma SamePathId(policy: PolicyDocument, a: PathRule, b: PathRule)
    requires DistinctRuleIds(policy) && a in policy.governedPaths && b in policy.governedPaths
    ensures a.id == b.id ==> a == b
  {
  }

  // ---------------------------------------------------------------- verification rules

  /** Promotions and direct writes are what verification rules speak about. */
  predicate IsGated(operation: Operation) {
    operation in {Rename, CopyFile, Clone, ExchangeData, OpenWrite, Create, Truncate}
  }

  /** The rule's expression is invalid, or is found in the target of a gated operation. */
  predicate VerificationHit(host: Host, event: RuntimeEvent, target: string, rule: VerificationRule) {
    var found := host.regexFinds(rule.targetPathRegex, target);
    found.None? || (found.value && IsGated(event.operation))
  }

  /** What a rule says: direct writes need a lease that bypasses the verifier; promotions need a source
      and a verifier that passes, or a lease that bypasses one that blocks. A verifier may throw. */
  function VerificationSays(rule: VerificationRule, event: RuntimeEvent, target: string, verifier: Option<Verifier>,
                            best: Option<Lease>): Result<Decision> {
    var id, lease := Some(rule.id), if best.Some? then Some(best.value.leaseID) else None;
    var bypass := best.Some? && best.value.bypassVerifier;
    if event.operation in {OpenWrite, Create, Truncate} then
      Success(if bypass then Decision(Allow, LeaseBypassesWriteGate, id, lease, Some(target), true)
              else Decision(Deny, DirectWriteDenied(rule.reason), id, lease, Some(target), false))
    else match (event.sourcePath, verifier)
      case (None, _) => Success(Decision(Deny, SourceMissing(rule.reason), id, lease, Some(target), false))
      case (Some(source), None) =>
        Success(Decision(Deny, VerifierUnavailable(rule.reason), id, lease, Some(source), false))
      case (Some(source), Some(verify)) =>
        match verify(rule.verifierCommand, source, target)
        case Failure(error) => Failure(error)
        case Success(Passed(detail)) =>
          Success(Decision(Allow, VerificationPassed, id, lease, Some(if detail == "" then source else detail), false))
        case Success(Blocked(detail)) =>
          var text := Some(if detail == "" then source else detail);
          Success(if bypass then Decision(Allow, LeaseBypassesVerifier, id, lease, text, true)
                  else Decision(Deny, VerifierBlocked(rule.reason), id, lease, text, false))
        case Success(InfrastructureFailure(detail)) =>
          Success(Decision(Deny, VerifierFailedClosed(rule.reason), id, lease, Some(detail), false))
  }

  lemma VerificationVerdictIs(rule: VerificationRule, event: RuntimeEvent, target: string, verifier: Option<Verifier>,
                              best: Option<Lease>)
    ensures RuleVerdict(rule, event, target, verifier, best) == VerificationSays(rule, event, target, verifier, best)
  {
  }

  lemma {:induction false} ApplicableRuleMeans(host: Host, rules: seq<VerificationRule>, event: RuntimeEvent,
                                               target: string)
    requires Ascending(rules, VerificationRuleLess) && IsAsymmetric(VerificationRuleLess)
    ensures forall r :: IsFirst(rules, VerificationRuleLess, q => VerificationHit(host, event, target, q), r) ==>
              ApplicableRule(host, rules, event, target) ==
                if host.regexFinds(r.targetPathRegex, target).None? then Failure(r.targetPathRegex)
                else Success(Some(r))
    ensures (forall q :: q in rules ==> !VerificationHit(host, event, target, q)) ==>
              ApplicableRule(host, rules, event, target) == Success(None)
  {
    var hit := q => VerificationHit(host, event, target, q);
    if rules != [] {
      ApplicableRuleMeans(host, rules[1..], event, target);
      forall r | IsFirst(rules, VerificationRuleLess, hit, r)
        ensures ApplicableRule(host, rules, event, target) ==
                  if host.regexFinds(r.targetPathRegex, target).None? then Failure(r.targetPathRegex)
                  else Success(Some(r))
      {
        FirstInTail(rules, VerificationRuleLess, hit, r);
      }
      assert forall q :: q in rules[1..] ==> q in rules;
      assert rules[0] in rules;
    }
  }

  /** Of the verification rules whose expression is invalid, or found for a gated operation, the one with
      the least id. */
  ghost predicate FirstVerification(host: Host, policy: PolicyDocument, event: RuntimeEvent, rule: VerificationRule) {
    && event.targetPath.Some? && rule in policy.verificationRules
    && VerificationHit(host, event, event.targetPath.value, rule)
    && (forall q :: q in policy.verificationRules && q != rule ==>
          VerificationHit(host, event, event.targetPath.value, q) ==> StringLess(rule.id, q.id))
  }

  ghost predicate NoVerification(host: Host, policy: PolicyDocument, event: RuntimeEvent) {
    event.targetPath.Some? ==>
      forall q :: q in policy.verificationRules ==> !VerificationHit(host, event, event.targetPath.value, q)
  }

  /** A rule as the first hit: it throws if its expression is invalid. */
  function VerificationOutcome(host: Host, event: RuntimeEvent, target: string, verifier: Option<Verifier>,
                               best: Option<Lease>, rule: VerificationRule): Result<Decision> {
    if host.regexFinds(rule.targetPathRegex, target).None? then Failure(rule.targetPathRegex)
    else VerificationSays(rule, event, target, verifier, best)
  }

  lemma FirstVerificationSorted(host: Host, policy: PolicyDocument, event: RuntimeEvent, rule: VerificationRule)
    requires event.targetPath.Some?
    ensures FirstVerification(host, policy, event, rule) <==>
              IsFirst(Sort(policy.verificationRules, VerificationRuleLess), VerificationRuleLess,
                      q => VerificationHit(host, event, event.targetPath.value, q), rule)
  {
    SortPermutes(policy.verificationRules, VerificationRuleLess);
  }

  lemma SomeVerification(host: Host, policy: PolicyDocument, event: RuntimeEvent) returns (rule: VerificationRule)
    requires DistinctRuleIds(policy) && !NoVerification(host, policy, event)
    ensures FirstVerification(host, policy, event, rule)
  {
    var hit := q => VerificationHit(host, event, event.targetPath.value, q);
    var rules := Sort(policy.verificationRules, VerificationRuleLess);
    RuleOrdersStrict();
    RulesComparable(policy);
    SortAscending(policy.verificationRules, VerificationRuleLess);
    SortPermutes(policy.verificationRules, VerificationRuleLess);
    var q :| q in policy.verificationRules && VerificationHit(host, event, event.targetPath.value, q);
    assert q in rules && hit(q);
    rule := FirstExists(rules, VerificationRuleLess, hit);
    FirstVerificationSorted(host, policy, event, rule);
  }

  lemma ApplicableMeans(host: Host, policy: PolicyDocument, event: RuntimeEvent)
    requires DistinctRuleIds(policy) && event.targetPath.Some?
    ensures var target, a := event.targetPath.value,
                             ApplicableRule(host, Normalized(policy).verificationRules, event, event.targetPath.value);
            && (NoVerification(host, policy, event) ==> a == Success(None))
            && (forall r :: FirstVerification(host, policy, event, r) ==>
                  a == if host.regexFinds(r.targetPathRegex, target).None? then Failure(r.targetPathRegex)
                       else Success(Some(r)))
            && (!NoVerification(host, policy, event) ==> exists r :: FirstVerification(host, policy, event, r))
  {
    RuleOrdersStrict();
    RulesComparable(policy);
    SortAscending(policy.verificationRules, VerificationRuleLess);
    SortPermutes(policy.verificationRules, VerificationRuleLess);
    ApplicableRuleMeans(host, Sort(policy.verificationRules, VerificationRuleLess), event, event.targetPath.value);
    forall r | FirstVerification(host, policy, event, r)
      ensures IsFirst(Sort(policy.verificationRules, VerificationRuleLess), VerificationRuleLess,
                      q => VerificationHit(host, event, event.targetPath.value, q), r)
    {
      FirstVerificationSorted(host, policy, event, r);
    }
    if !NoVerification(host, policy, event) { var r := SomeVerification(host, policy, event); }
  }

  lemma VerificationMeans(host: Host, policy: PolicyDocument, event: RuntimeEvent, verifier: Option<Verifier>,
                          best: Option<Lease>)
    requires DistinctRuleIds(policy) && event.targetPath.Some?
    ensures var target := event.targetPath.value;
            var v := VerificationVerdict(host, Normalized(policy), event, verifier, best);
            && (NoVerification(host, policy, event) ==> v == Success(None))
            && (forall r :: FirstVerification(host, policy, event, r) ==>
                  v == match VerificationOutcome(host, event, target, verifier, best, r)
                       case Success(d) => Success(Some(d))
                       case Failure(e) => Failure(e))
  {
    ApplicableMeans(host, policy, event);
    forall r | FirstVerification(host, policy, event, r)
      ensures VerificationVerdict(host, Normalized(policy), event, verifier, best) ==
                match VerificationOutcome(host, event, event.targetPath.value, verifier, best, r)
                case Success(d) => Success(Some(d))
                case Failure(e) => Failure(e)
    {
      VerificationVerdictIs(r, event, event.targetPath.value, verifier, best);
    }
  }

  /** What no rule decides: allowed, and said to be outside the control plane if the target matches a
      writable reference path. */
  ghost function Otherwise(host: Host, policy: PolicyDocument, event: RuntimeEvent): Decision {
    if event.targetPath.Some?
       && exists p :: p in policy.writableReferencePaths && host.pathMatches(p, event.targetPath.value) then
      Decision(Allow, OutsideControlPlane, None, None, event.targetPath, false)
    else Decision(Allow, NoMatchingRule, None, None, None, false)
  }

  lemma SortedPaths(host: Host, policy: PolicyDocument, target: string)
    ensures (exists p :: p in Normalized(policy).writableReferencePaths && host.pathMatches(p, target)) <==>
            (exists p :: p in policy.writableReferencePaths && host.pathMatches(p, target))
  {
    SortPermutes(policy.writableReferencePaths, StringLess);
  }

  /** The rest of the cascade: past commands and paths, the first verification rule decides, or nothing
      does. */
  lemma PastPaths(host: Host, policy: PolicyDocument, now: int, event: RuntimeEvent, verifier: Option<Verifier>,
                  leases: seq<Lease>, best: Option<Lease>)
    requires DistinctRuleIds(policy) && DistinctLeaseIds(leases)
    requires IsBestLease(host, policy.profile, now, event, leases, best)
    requires NoCommand(host, policy, event) && NoPath(host, policy, event)
    ensures NoVerification(host, policy, event) ==>
              Decide(host, policy, now, event, verifier, leases) == Success(Otherwise(host, policy, event))
    ensures forall r :: FirstVerification(host, policy, event, r) ==>
              Decide(host, policy, now, event, verifier, leases)
                == VerificationOutcome(host, event, event.targetPath.value, verifier, best, r)
  {
    BestLeaseByKeys(host, policy, now, event, leases, best);
    CommandVerdictMeans(host, policy, event, best);
    PathRuleMeans(host, policy, event);
    if event.targetPath.Some? {
      VerificationMeans(host, policy, event, verifier, best);
      SortedPaths(host, policy, event.targetPath.value);
    }
  }

  /** Which verification rule decides: with distinct ids, no governed command found and no governed path,
      a decision names rule `rule`, and is what that rule says under the best lease, exactly when the
      rule's expression is found in the target of a gated operation, every other rule whose expression is
      found or invalid has a greater id, and the verifier does not throw. */
  lemma VerificationRuleExactly(host: Host, policy: PolicyDocument, now: int, event: RuntimeEvent,
                                verifier: Option<Verifier>, leases: seq<Lease>, best: Option<Lease>,
                                rule: VerificationRule)
    requires DistinctRuleIds(policy) && DistinctLeaseIds(leases)
    requires IsBestLease(host, policy.profile, now, event, leases, best)
    requires rule in policy.verificationRules && NoCommand(host, policy, event) && NoPath(host, policy, event)
    requires event.targetPath.Some?
    ensures var r, says := Decide(host, policy, now, event, verifier, leases),
                           VerificationSays(rule, event, event.targetPath.value, verifier, best);
            && (r.Success? && r.value.matchedRuleID == Some(rule.id) <==>
                  && FirstVerification(host, policy, event, rule) && says.Success?
                  && host.regexFinds(rule.targetPathRegex, event.targetPath.value) == Some(true))
            && (r.Success? && r.value.matchedRuleID == Some(rule.id) ==> r == says)
  {
    var target := event.targetPath.value;
    PastPaths(host, policy, now, event, verifier, leases, best);
    ApplicableMeans(host, policy, event);
    if !NoVerification(host, policy, event) {
      var first :| FirstVerification(host, policy, event, first);
      SameVerificationId(policy, first, rule);
      StringTotal(first.id, rule.id);
      NamesItself(first, event, target, verifier, best);
      var found := host.regexFinds(first.targetPathRegex, target);
      assert found.Some? ==> found.value && found == Some(found.value);
    }
  }

  lemma SameVerificationId(policy: PolicyDocument, a: VerificationRule, b: VerificationRule)
    requires DistinctRuleIds(policy) && a in policy.verificationRules && b in policy.verificationRules
    ensures a.id == b.id ==> a == b
  {
  }

  lemma NamesItself(rule: VerificationRule, event: RuntimeEvent, target: string, verifier: Option<Verifier>,
                    best: Option<Lease>)
    ensures var says := VerificationSays(rule, event, target, verifier, best);
            says.Success? ==> says.value.matchedRuleID == Some(rule.id)
  {
  }

  /** What happens when no rule has anything to say. */
  lemma NothingGoverns(host: Host, policy: PolicyDocument, now: int, event: RuntimeEvent, verifier: Option<Verifier>,
                       leases: seq<Lease>)
    requires DistinctRuleIds(policy) && DistinctLeaseIds(leases)
    ensures var r := Decide(host, policy, now, event, verifier, leases);
            && (r.Success? && r.value.matchedRuleID == None <==>
                  NoCommand(host, policy, event) && NoPath(host, policy, event) && NoVerification(host, policy, event))
            && (r.Success? && r.value.matchedRuleID == None ==> r.value == Otherwise(host, policy, event))
  {
    var best := BestFor(host, policy, now, event, leases);
    BestLeaseByKeys(host, policy, now, event, leases, best);
    CommandVerdictMeans(host, policy, event, best);
    if !NoCommand(host, policy, event) {
      var first := SomeCommand(host, policy, event);
    } else if !NoPath(host, policy, event) {
      PathRuleMeans(host, policy, event);
    } else {
      PastPaths(host, policy, now, event, verifier, leases, best);
      if !NoVerification(host, policy, event) {
        ApplicableMeans(host, policy, event);
        var first :| FirstVerification(host, policy, event, first);
        NamesItself(first, event, event.targetPath.value, verifier, best);
      }
    }
  }

  /** When a decision throws: exactly when the first governed command, or past commands and paths the
      first verification rule, has an invalid expression, or that rule's verifier throws. */
  lemma ThrowsExactly(host: Host, policy: PolicyDocument, now: int, event: RuntimeEvent, verifier: Option<Verifier>,
                      leases: seq<Lease>, best: Option<Lease>)
    requires DistinctRuleIds(policy) && DistinctLeaseIds(leases)
    requires IsBestLease(host, policy.profile, now, event, leases, best)
    ensures Decide(host, policy, now, event, verifier, leases).Failure? <==>
              || (exists c :: FirstCommand(host, policy, event, c)
                    && host.regexFinds(c.commandRegex, Joined(event.argv.value)).None?)
              || (NoCommand(host, policy, event) && NoPath(host, policy, event)
                  && exists v :: FirstVerification(host, policy, event, v)
                       && VerificationOutcome(host, event, event.targetPath.value, verifier, best, v).Failure?)
  {
    BestLeaseByKeys(host, policy, now, event, leases, best);
    CommandVerdictMeans(host, policy, event, best);
    if !NoCommand(host, policy, event) {
      var first := SomeCommand(host, policy, event);
    } else if !NoPath(host, policy, event) {
      PathRuleMeans(host, policy, event);
    } else {
      PastPaths(host, policy, now, event, verifier, leases, best);
      if !NoVerification(host, policy, event) { ApplicableMeans(host, policy, event); }
    }
  }
}

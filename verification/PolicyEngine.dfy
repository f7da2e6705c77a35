/** The CASS decision cascade (`PolicyEngine.swift`): governed commands, then governed paths, then
    verification rules, each possibly overridden by the best matching breakglass lease. */
module PolicyEngine {
  import opened Wrappers
  import opened Ordering
  import opened PolicyModels

  // ---------------------------------------------------------------- the best matching lease

  function Elements(s: seq<string>): set<string> {
    set x | x in s
  }

  /** The token itself when it looks like a path, and the absolute paths inside it. */
  function TokenPaths(host: Host, token: string): seq<string> {
    (if token != "" && token[0] in "/~." then [token] else []) + host.fragments(token)
  }

  function TokenCandidates(host: Host, argv: seq<string>): set<string> {
    if argv == [] then {}
    else TokenCandidates(host, argv[..|argv| - 1]) + Elements(TokenPaths(host, argv[|argv| - 1]))
  }

  /** The paths an event is about. */
  function LeaseCandidates(host: Host, event: RuntimeEvent): set<string> {
    (if event.targetPath.Some? then {event.targetPath.value} else {})
    + (if event.sourcePath.Some? then {event.sourcePath.value} else {})
    + (if event.argv.Some? then TokenCandidates(host, event.argv.value) else {})
  }

  predicate LeaseMatches(host: Host, event: RuntimeEvent, lease: Lease) {
    && event.operation in lease.operations
    && exists p :: p in lease.pathPatterns &&
         (p == "*" || exists c :: c in LeaseCandidates(host, event) && host.pathMatches(p, c))
  }

  function LiteralCount(pattern: string): nat {
    if pattern == "" then 0 else (if pattern[0] in "*?" then 0 else 1) + LiteralCount(pattern[1..])
  }

  /** The largest number of literal characters in a pattern; 0 without patterns. */
  function MaxLiterals(patterns: seq<string>): nat {
    if patterns == [] then 0 else
    var rest, first := MaxLiterals(patterns[1..]), LiteralCount(patterns[0]);
    if first > rest then first else rest
  }

  /** More specific first, then sooner to expire, then older, then by id. */
  predicate LeasePrecedes(a: Lease, b: Lease) {
    var x, y := MaxLiterals(a.pathPatterns), MaxLiterals(b.pathPatterns);
    if x != y then x > y
    else if a.expiresAt != b.expiresAt then StringLess(a.expiresAt, b.expiresAt)
    else if a.createdAt != b.createdAt then StringLess(a.createdAt, b.createdAt)
    else StringLess(a.leaseID, b.leaseID)
  }

  /** The leases that match an event, in their order. */
  function Matching(host: Host, event: RuntimeEvent, leases: seq<Lease>): seq<Lease> {
    if leases == [] then [] else
    var rest, last := Matching(host, event, leases[..|leases| - 1]), leases[|leases| - 1];
    if LeaseMatches(host, event, last) then rest + [last] else rest
  }

  function MatchingLease(host: Host, event: RuntimeEvent, leases: seq<Lease>): Option<Lease> {
    var sorted := Sort(Matching(host, event, leases), LeasePrecedes);
    if sorted == [] then None else Some(sorted[0])
  }

  // ---------------------------------------------------------------- the cascade, given the best lease

  function Joined(argv: seq<string>): string {
    if argv == [] then "" else if |argv| == 1 then argv[0] else argv[0] + " " + Joined(argv[1..])
  }

  function LeaseId(lease: Option<Lease>): Option<string> {
    if lease.Some? then Some(lease.value.leaseID) else None
  }

  function Granted(rule: string, reason: Reason, best: Option<Lease>, detail: string, bypassed: bool): Decision {
    Decision(Allow, reason, Some(rule), LeaseId(best), Some(detail), bypassed)
  }

  /** First governed command whose expression is found; an invalid expression met before throws. */
  function CommandScan(host: Host, rules: seq<CommandRule>, joined: string,
                       best: Option<Lease>): Result<Option<Decision>> {
    if rules == [] then Success(None)
    else match host.regexFinds(rules[0].commandRegex, joined)
      case None => Failure(rules[0].commandRegex)
      case Some(false) => CommandScan(host, rules[1..], joined, best)
      case Some(true) => Success(Some(
        if best.Some? then
          Granted(rules[0].id, LeaseOverridesCommand, best, joined, false)
        else Decision(rules[0].action, RuleSays(rules[0].reason), Some(rules[0].id), None, Some(joined), false)))
  }

  predicate GovernsCommand(event: RuntimeEvent) {
    event.operation == Exec && event.argv.Some? && event.argv.value != []
  }

  function CommandVerdict(host: Host, policy: PolicyDocument, event: RuntimeEvent,
                          best: Option<Lease>): Result<Option<Decision>> {
    if !GovernsCommand(event) then Success(None)
    else CommandScan(host, policy.governedCommands, Joined(event.argv.value), best)
  }

  function FirstPathRule(host: Host, rules: seq<PathRule>, operation: Operation, path: string): Option<PathRule> {
    if rules == [] then None
    else if operation in rules[0].operations && host.pathMatches(rules[0].pathPattern, path) then Some(rules[0])
    else FirstPathRule(host, rules[1..], operation, path)
  }

  predicate IsPromotion(operation: Operation) {
    operation in {Rename, CopyFile, Clone, ExchangeData}
  }

  predicate IsDirectWrite(operation: Operation) {
    operation in {OpenWrite, Create, Truncate}
  }

  function OrElse(s: string, default: string): string {
    if s == "" then default else s
  }

  function Bypasses(best: Option<Lease>): bool {
    best.Some? && best.value.bypassVerifier
  }

  function Refused(rule: VerificationRule, reason: Reason, best: Option<Lease>, detail: string): Decision {
    Decision(Deny, reason, Some(rule.id), LeaseId(best), Some(detail), false)
  }

  function DirectWriteVerdict(rule: VerificationRule, target: string, best: Option<Lease>): Decision {
    if Bypasses(best) then
      Granted(rule.id, LeaseBypassesWriteGate, best, target, true)
    else
      Refused(rule, DirectWriteDenied(rule.reason), best, target)
  }

  function PromotionVerdict(rule: VerificationRule, verdict: Verdict, source: string, best: Option<Lease>): Decision {
    match verdict
    case Passed(detail) =>
      Decision(Allow, VerificationPassed,
               Some(rule.id), LeaseId(best), Some(OrElse(detail, source)), false)
    case Blocked(detail) =>
      if Bypasses(best) then
        Granted(rule.id, LeaseBypassesVerifier,
                best, OrElse(detail, source), true)
      else
        Refused(rule, VerifierBlocked(rule.reason), best, OrElse(detail, source))
    case InfrastructureFailure(detail) =>
      Refused(rule, VerifierFailedClosed(rule.reason), best, detail)
  }

  /** What a verification rule that applies says about a promotion or a direct write. */
  function RuleVerdict(rule: VerificationRule, event: RuntimeEvent, target: string,
                       verifier: Option<Verifier>, best: Option<Lease>): Result<Decision> {
    if IsDirectWrite(event.operation) then Success(DirectWriteVerdict(rule, target, best))
    else if event.sourcePath.None? then Success(Refused(rule, SourceMissing(rule.reason), best, target))
    else
      var source := event.sourcePath.value;
      if verifier.None? then Success(Refused(rule, VerifierUnavailable(rule.reason), best, source))
      else
        var verdict :- verifier.value(rule.verifierCommand, source, target);
        Success(PromotionVerdict(rule, verdict, source, best))
  }

  /** First verification rule whose expression is found and that has something to say. */
  function ApplicableRule(host: Host, rules: seq<VerificationRule>, event: RuntimeEvent,
                          target: string): Result<Option<VerificationRule>> {
    if rules == [] then Success(None)
    else match host.regexFinds(rules[0].targetPathRegex, target)
      case None => Failure(rules[0].targetPathRegex)
      case Some(found) =>
        if found && (IsPromotion(event.operation) || IsDirectWrite(event.operation)) then Success(Some(rules[0]))
        else ApplicableRule(host, rules[1..], event, target)
  }

  function VerificationVerdict(host: Host, policy: PolicyDocument, event: RuntimeEvent,
                               verifier: Option<Verifier>, best: Option<Lease>): Result<Option<Decision>> {
    if event.targetPath.None? then Success(None) else
    var rule :- ApplicableRule(host, policy.verificationRules, event, event.targetPath.value);
    if rule.None? then Success(None) else
    var decision :- RuleVerdict(rule.value, event, event.targetPath.value, verifier, best);
    Success(Some(decision))
  }

  function PathRuleFor(host: Host, policy: PolicyDocument, event: RuntimeEvent): Option<PathRule> {
    if event.targetPath.None? then None
    else FirstPathRule(host, policy.governedPaths, event.operation, event.targetPath.value)
  }

  function PathVerdict(host: Host, policy: PolicyDocument, event: RuntimeEvent,
                       verifier: Option<Verifier>, best: Option<Lease>): Result<Option<Decision>> {
    match PathRuleFor(host, policy, event)
    case Some(rule) => Success(Some(
      if best.Some? then
        Granted(rule.id, LeaseOverridesPath, best, event.targetPath.value, false)
      else Decision(rule.action, RuleSays(rule.reason), Some(rule.id), None, event.targetPath, false)))
    case None => VerificationVerdict(host, policy, event, verifier, best)
  }

  /** The whole cascade on a normalised policy, as a function of the best matching lease. */
  function Cascade(host: Host, policy: PolicyDocument, event: RuntimeEvent,
                   verifier: Option<Verifier>, best: Option<Lease>): Result<Decision> {
    var command :- CommandVerdict(host, policy, event, best);
    if command.Some? then Success(command.value) else
    var path :- PathVerdict(host, policy, event, verifier, best);
    if path.Some? then Success(path.value)
    else if event.targetPath.Some?
      && exists p :: p in policy.writableReferencePaths && host.pathMatches(p, event.targetPath.value)
    then Success(Decision(Allow, OutsideControlPlane, None, None, event.targetPath, false))
    else Success(Decision(Allow, NoMatchingRule, None, None, None, false))
  }

  predicate Usable(host: Host, profile: Profile, lease: Lease, now: int) {
    lease.profile == profile && IsActive(host, lease, now)
  }

  /** The leases of the policy's profile that are active, in their order. */
  function InForce(host: Host, profile: Profile, leases: seq<Lease>, now: int): seq<Lease> {
    if leases == [] then [] else
    var rest, last := InForce(host, profile, leases[..|leases| - 1], now), leases[|leases| - 1];
    if Usable(host, profile, last, now) then rest + [last] else rest
  }

  function Decide(host: Host, policy: PolicyDocument, now: int, event: RuntimeEvent,
                  verifier: Option<Verifier>, leases: seq<Lease>): Result<Decision> {
    var best := MatchingLease(host, event, InForce(host, policy.profile, leases, now));
    Cascade(host, Normalized(policy), event, verifier, best)
  }

  // ---------------------------------------------------------------- the scans as the source runs them

  lemma ElementsConcat(a: seq<string>, b: seq<string>)
    ensures Elements(a + b) == Elements(a) + Elements(b)
  {
  }

  method CollectCandidates(host: Host, event: RuntimeEvent) returns (candidates: seq<string>)
    ensures Elements(candidates) == LeaseCandidates(host, event)
  {
    candidates := [];
    if event.targetPath.Some? { candidates := candidates + [event.targetPath.value]; }
    if event.sourcePath.Some? { candidates := candidates + [event.sourcePath.value]; }
    ghost var paths := Elements(candidates);
    if event.argv.Some? {
      var argv := event.argv.value;
      for i := 0 to |argv|
        invariant Elements(candidates) == paths + TokenCandidates(host, argv[..i])
      {
        assert argv[..i + 1][..i] == argv[..i];
        var argument := argv[i];
        var found := [];
        if argument != "" && argument[0] in "/~." { found := [argument]; }
        found := found + host.fragments(argument);
        ElementsConcat(candidates, found);
        candidates := candidates + found;
      }
      assert argv[..|argv|] == argv;
    }
  }

  method CommandDecision(host: Host, policy: PolicyDocument, event: RuntimeEvent, leases: seq<Lease>)
    returns (r: Result<Option<Decision>>)
    ensures r == CommandVerdict(host, policy, event, MatchingLease(host, event, leases))
  {
    if event.operation != Exec || event.argv.None? || event.argv.value == [] {
      return Success(None);
    }
    var joined := Joined(event.argv.value);
    var rules := policy.governedCommands;
    ghost var best := MatchingLease(host, event, leases);
    for i := 0 to |rules|
      invariant CommandScan(host, rules, joined, best) == CommandScan(host, rules[i..], joined, best)
    {
      var rule := rules[i];
      assert rules[i..][1..] == rules[i + 1..];
      var found := host.regexFinds(rule.commandRegex, joined);
      if found.None? {
        return Failure(rule.commandRegex);
      }
      if !found.value {
        continue;
      }
      var lease := MatchingLease(host, event, leases);
      if lease.Some? {
        return Success(Some(Decision(Allow, LeaseOverridesCommand,
                                     Some(rule.id), Some(lease.value.leaseID), Some(joined), false)));
      }
      return Success(Some(Decision(rule.action, RuleSays(rule.reason), Some(rule.id), None, Some(joined), false)));
    }
    r := Success(None);
  }

  method VerificationDecision(host: Host, policy: PolicyDocument, event: RuntimeEvent,
                              verifier: Option<Verifier>, leases: seq<Lease>)
    returns (r: Result<Option<Decision>>)
    ensures r == VerificationVerdict(host, policy, event, verifier, MatchingLease(host, event, leases))
  {
    if event.targetPath.None? {
      return Success(None);
    }
    var target := event.targetPath.value;
    var rules := policy.verificationRules;
    for i := 0 to |rules|
      invariant ApplicableRule(host, rules, event, target) == ApplicableRule(host, rules[i..], event, target)
    {
      var rule := rules[i];
      assert rules[i..][1..] == rules[i + 1..];
      var found := host.regexFinds(rule.targetPathRegex, target);
      if found.None? {
        return Failure(rule.targetPathRegex);
      }
      if !found.value || !(IsPromotion(event.operation) || IsDirectWrite(event.operation)) {
        continue;
      }
      var lease := MatchingLease(host, event, leases);
      var decision :- RuleVerdict(rule, event, target, verifier, lease);
      return Success(Some(decision));
    }
    r := Success(None);
  }

  method PathDecision(host: Host, policy: PolicyDocument, event: RuntimeEvent,
                      verifier: Option<Verifier>, leases: seq<Lease>)
    returns (r: Result<Option<Decision>>)
    ensures r == PathVerdict(host, policy, event, verifier, MatchingLease(host, event, leases))
  {
    var rule := PathRuleFor(host, policy, event);
    if rule.Some? {
      var lease := MatchingLease(host, event, leases);
      if lease.Some? {
        return Success(Some(Decision(Allow, LeaseOverridesPath,
                                     Some(rule.value.id), Some(lease.value.leaseID), event.targetPath, false)));
      }
      return Success(Some(Decision(rule.value.action, RuleSays(rule.value.reason), Some(rule.value.id), None,
                                   event.targetPath, false)));
    }
    r := VerificationDecision(host, policy, event, verifier, leases);
  }

  method DecideEvent(host: Host, policy: PolicyDocument, now: int, event: RuntimeEvent,
                     verifier: Option<Verifier>, activeLeases: seq<Lease>)
    returns (r: Result<Decision>)
    ensures r == Decide(host, policy, now, event, verifier, activeLeases)
  {
    var normalized := Normalized(policy);
    var leases := InForce(host, policy.profile, activeLeases, now);
    var command :- CommandDecision(host, normalized, event, leases);
    if command.Some? {
      return Success(command.value);
    }
    var path :- PathDecision(host, normalized, event, verifier, leases);
    if path.Some? {
      return Success(path.value);
    }
    if event.targetPath.Some?
      && exists p :: p in normalized.writableReferencePaths && host.pathMatches(p, event.targetPath.value) {
      return Success(Decision(Allow, OutsideControlPlane, None, None, event.targetPath, false));
    }
    r := Success(Decision(Allow, NoMatchingRule, None, None, None, false));
  }

  // ---------------------------------------------------------------- lease precedence

  ghost predicate DistinctLeaseIds(leases: seq<Lease>) {
    forall i, j :: 0 <= i < j < |leases| ==> leases[i].leaseID != leases[j].leaseID
  }

  lemma PrecedesTransitive(a: Lease, b: Lease, c: Lease)
    requires LeasePrecedes(a, b) && LeasePrecedes(b, c)
    ensures LeasePrecedes(a, c)
  {
    if a.expiresAt != b.expiresAt && b.expiresAt != c.expiresAt
       && StringLess(a.expiresAt, b.expiresAt) && StringLess(b.expiresAt, c.expiresAt) {
      StringTransitive(a.expiresAt, b.expiresAt, c.expiresAt);
    }
    if StringLess(a.createdAt, b.createdAt) && StringLess(b.createdAt, c.createdAt) {
      StringTransitive(a.createdAt, b.createdAt, c.createdAt);
    }
    if StringLess(a.leaseID, b.leaseID) && StringLess(b.leaseID, c.leaseID) {
      StringTransitive(a.leaseID, b.leaseID, c.leaseID);
    }
    StringTotal(a.expiresAt, c.expiresAt);
    StringTotal(a.createdAt, c.createdAt);
    StringTotal(a.expiresAt, b.expiresAt);
    StringTotal(a.createdAt, b.createdAt);
  }

  lemma PrecedesTotal(a: Lease, b: Lease)
    ensures !(LeasePrecedes(a, b) && LeasePrecedes(b, a))
    ensures a.leaseID != b.leaseID ==> LeasePrecedes(a, b) || LeasePrecedes(b, a)
  {
    StringTotal(a.expiresAt, b.expiresAt);
    StringTotal(a.createdAt, b.createdAt);
    StringTotal(a.leaseID, b.leaseID);
  }

  /** Lease precedence is a strict total order on leases with distinct ids. */
  lemma PrecedesIsOrder(leases: seq<Lease>)
    requires DistinctLeaseIds(leases)
    ensures IsStrict(LeasePrecedes) && Comparable(leases, LeasePrecedes)
  {
    forall x, y ensures !(LeasePrecedes(x, y) && LeasePrecedes(y, x))
                     && (x.leaseID != y.leaseID ==> LeasePrecedes(x, y) || LeasePrecedes(y, x)) {
      PrecedesTotal(x, y);
    }
    forall x, y, z | LeasePrecedes(x, y) && LeasePrecedes(y, z) ensures LeasePrecedes(x, z) {
      PrecedesTransitive(x, y, z);
    }
  }

  lemma {:induction false} MatchingMeans(host: Host, event: RuntimeEvent, leases: seq<Lease>)
    ensures forall l :: l in Matching(host, event, leases) <==> l in leases && LeaseMatches(host, event, l)
    ensures DistinctLeaseIds(leases) ==> DistinctLeaseIds(Matching(host, event, leases))
  {
    if leases != [] {
      var init, last := leases[..|leases| - 1], leases[|leases| - 1];
      assert leases == init + [last];
      MatchingMeans(host, event, init);
      forall l | l in init && DistinctLeaseIds(leases) ensures l.leaseID != last.leaseID {}
    }
  }

  lemma {:induction false} InForceMeans(host: Host, profile: Profile, leases: seq<Lease>, now: int)
    ensures forall l :: l in InForce(host, profile, leases, now) <==> l in leases && Usable(host, profile, l, now)
    ensures DistinctLeaseIds(leases) ==> DistinctLeaseIds(InForce(host, profile, leases, now))
  {
    if leases != [] {
      var init, last := leases[..|leases| - 1], leases[|leases| - 1];
      assert leases == init + [last];
      InForceMeans(host, profile, init, now);
      forall l | l in init && DistinctLeaseIds(leases) ensures l.leaseID != last.leaseID {}
    }
  }

  /** `best` matches and comes before every other matching lease. */
  ghost predicate IsBest(host: Host, event: RuntimeEvent, leases: seq<Lease>, best: Lease) {
    && best in leases && LeaseMatches(host, event, best)
    && forall l :: l in leases && LeaseMatches(host, event, l) && l != best ==> LeasePrecedes(best, l)
  }

  /** The lease picked is exactly the unique one that precedes all other matching leases. */
  lemma BestLeaseExactly(host: Host, event: RuntimeEvent, leases: seq<Lease>)
    requires DistinctLeaseIds(leases)
    ensures forall best :: MatchingLease(host, event, leases) == Some(best) <==> IsBest(host, event, leases, best)
    ensures MatchingLease(host, event, leases).None? <==> forall l :: l in leases ==> !LeaseMatches(host, event, l)
  {
    var matching := Matching(host, event, leases);
    var sorted := Sort(matching, LeasePrecedes);
    MatchingMeans(host, event, leases);
    PrecedesIsOrder(matching);
    SortPermutes(matching, LeasePrecedes);
    SortAscending(matching, LeasePrecedes);
    if sorted != [] {
      forall l | l in leases && LeaseMatches(host, event, l) && l != sorted[0] ensures LeasePrecedes(sorted[0], l) {
        var k :| 0 <= k < |sorted| && sorted[k] == l;
      }
      assert sorted[0] in matching;
      assert IsBest(host, event, leases, sorted[0]);
      forall best | IsBest(host, event, leases, best) ensures best == sorted[0] {
        PrecedesTotal(best, sorted[0]);
      }
    }
  }

  // ---------------------------------------------------------------- order of rules and leases

  /** The same lease up to the order and repetition of its patterns and operations. */
  ghost predicate SameLease(a: Lease, b: Lease) {
    && a.leaseID == b.leaseID && a.profile == b.profile
    && a.createdAt == b.createdAt && a.expiresAt == b.expiresAt && a.bypassVerifier == b.bypassVerifier
    && (forall p :: p in a.pathPatterns <==> p in b.pathPatterns)
    && (forall op :: op in a.operations <==> op in b.operations)
  }

  ghost function Ids(leases: seq<Lease>): set<string> {
    set l | l in leases :: l.leaseID
  }

  /** The two lists hold the same leases. */
  ghost predicate SameLeases(a: seq<Lease>, b: seq<Lease>) {
    && Ids(a) == Ids(b)
    && forall l, m :: l in a && m in b && l.leaseID == m.leaseID ==> SameLease(l, m)
  }

  lemma Counterpart(a: seq<Lease>, b: seq<Lease>, l: Lease) returns (m: Lease)
    requires SameLeases(a, b) && l in a
    ensures m in b && SameLease(l, m)
  {
    assert l.leaseID in Ids(b);
    m :| m in b && m.leaseID == l.leaseID;
  }

  lemma SameLeasesFlip(a: seq<Lease>, b: seq<Lease>)
    requires SameLeases(a, b)
    ensures SameLeases(b, a)
  {
  }

  lemma {:induction false} MaxLiteralsMeans(patterns: seq<string>)
    ensures forall p :: p in patterns ==> LiteralCount(p) <= MaxLiterals(patterns)
    ensures patterns != [] ==> exists p :: p in patterns && LiteralCount(p) == MaxLiterals(patterns)
  {
    if patterns != [] {
      MaxLiteralsMeans(patterns[1..]);
      assert patterns == [patterns[0]] + patterns[1..];
      if MaxLiterals(patterns) != LiteralCount(patterns[0]) {
        var p :| p in patterns[1..] && LiteralCount(p) == MaxLiterals(patterns[1..]);
        assert p in patterns;
      } else {
        assert patterns[0] in patterns;
      }
    }
  }

  lemma SameLeaseSameRank(a: Lease, b: Lease)
    requires SameLease(a, b)
    ensures MaxLiterals(a.pathPatterns) == MaxLiterals(b.pathPatterns)
  {
    MaxLiteralsMeans(a.pathPatterns);
    MaxLiteralsMeans(b.pathPatterns);
    if a.pathPatterns != [] { assert a.pathPatterns[0] in b.pathPatterns; }
    if b.pathPatterns != [] { assert b.pathPatterns[0] in a.pathPatterns; }
  }

  lemma SameLeaseMatches(host: Host, event: RuntimeEvent, a: Lease, b: Lease)
    requires SameLease(a, b)
    ensures LeaseMatches(host, event, a) == LeaseMatches(host, event, b)
  {
  }

  lemma SamePrecedence(a: Lease, b: Lease, c: Lease, d: Lease)
    requires SameLease(a, b) && SameLease(c, d)
    ensures LeasePrecedes(a, c) == LeasePrecedes(b, d)
  {
    SameLeaseSameRank(a, b);
    SameLeaseSameRank(c, d);
  }

  lemma CounterpartIsBest(host: Host, event: RuntimeEvent, a: seq<Lease>, b: seq<Lease>, x: Lease, y: Lease)
    requires SameLeases(b, a) && DistinctLeaseIds(b)
    requires IsBest(host, event, a, x) && y in b && SameLease(x, y)
    ensures IsBest(host, event, b, y)
  {
    SameLeaseMatches(host, event, x, y);
    forall m | m in b && LeaseMatches(host, event, m) && m != y ensures LeasePrecedes(y, m) {
      var l := Counterpart(b, a, m);
      DistinctById(b, m, y);
      SameLeaseMatches(host, event, l, m);
      SamePrecedence(x, y, l, m);
    }
  }

  lemma SameBest(host: Host, event: RuntimeEvent, a: seq<Lease>, b: seq<Lease>)
    requires SameLeases(a, b) && DistinctLeaseIds(a) && DistinctLeaseIds(b)
    ensures MatchingLease(host, event, a).Some? == MatchingLease(host, event, b).Some?
    ensures MatchingLease(host, event, a).Some? ==>
      SameLease(MatchingLease(host, event, a).value, MatchingLease(host, event, b).value)
  {
    var x, y := MatchingLease(host, event, a), MatchingLease(host, event, b);
    BestLeaseExactly(host, event, a);
    BestLeaseExactly(host, event, b);
    SameLeasesFlip(a, b);
    if x.Some? {
      var m := Counterpart(a, b, x.value);
      CounterpartIsBest(host, event, a, b, x.value, m);
    } else if y.Some? {
      var l := Counterpart(b, a, y.value);
      SameLeaseMatches(host, event, l, y.value);
    }
  }

  lemma DistinctById(leases: seq<Lease>, a: Lease, b: Lease)
    requires DistinctLeaseIds(leases) && a in leases && b in leases && a != b
    ensures a.leaseID != b.leaseID
  {
    var i :| 0 <= i < |leases| && leases[i] == a;
    var j :| 0 <= j < |leases| && leases[j] == b;
  }

  ghost predicate SeenAlike(x: Option<Lease>, y: Option<Lease>) {
    LeaseId(x) == LeaseId(y) && Bypasses(x) == Bypasses(y)
  }

  lemma {:induction false} CommandScanSees(host: Host, rules: seq<CommandRule>, joined: string,
                                           x: Option<Lease>, y: Option<Lease>)
    requires SeenAlike(x, y)
    ensures CommandScan(host, rules, joined, x) == CommandScan(host, rules, joined, y)
  {
    if rules != [] { CommandScanSees(host, rules[1..], joined, x, y); }
  }

  lemma RuleVerdictSees(rule: VerificationRule, event: RuntimeEvent, target: string, verifier: Option<Verifier>,
                        x: Option<Lease>, y: Option<Lease>)
    requires SeenAlike(x, y)
    ensures RuleVerdict(rule, event, target, verifier, x) == RuleVerdict(rule, event, target, verifier, y)
  {
  }

  lemma VerificationVerdictSees(host: Host, p: PolicyDocument, q: PolicyDocument, event: RuntimeEvent,
                                verifier: Option<Verifier>, x: Option<Lease>, y: Option<Lease>)
    requires p.verificationRules == q.verificationRules
    requires SeenAlike(x, y)
    ensures VerificationVerdict(host, p, event, verifier, x) == VerificationVerdict(host, q, event, verifier, y)
  {
    if event.targetPath.Some? {
      var rule := ApplicableRule(host, p.verificationRules, event, event.targetPath.value);
      if rule.Success? && rule.value.Some? {
        RuleVerdictSees(rule.value.value, event, event.targetPath.value, verifier, x, y);
      }
    }
  }

  lemma PathVerdictSees(host: Host, p: PolicyDocument, q: PolicyDocument, event: RuntimeEvent,
                        verifier: Option<Verifier>, x: Option<Lease>, y: Option<Lease>)
    requires p.governedPaths == q.governedPaths && p.verificationRules == q.verificationRules
    requires SeenAlike(x, y)
    ensures PathVerdict(host, p, event, verifier, x) == PathVerdict(host, q, event, verifier, y)
  {
    VerificationVerdictSees(host, p, q, event, verifier, x, y);
  }

  /** The cascade sees a lease only through its id and its bypass flag, and the writable paths only
      as a set. */
  lemma CascadeSees(host: Host, p: PolicyDocument, q: PolicyDocument, event: RuntimeEvent,
                    verifier: Option<Verifier>, x: Option<Lease>, y: Option<Lease>)
    requires p.governedPaths == q.governedPaths && p.governedCommands == q.governedCommands
    requires p.verificationRules == q.verificationRules
    requires forall s :: s in p.writableReferencePaths <==> s in q.writableReferencePaths
    requires SeenAlike(x, y)
    ensures Cascade(host, p, event, verifier, x) == Cascade(host, q, event, verifier, y)
  {
    if GovernsCommand(event) { CommandScanSees(host, p.governedCommands, Joined(event.argv.value), x, y); }
    assert CommandVerdict(host, p, event, x) == CommandVerdict(host, q, event, y);
    PathVerdictSees(host, p, q, event, verifier, x, y);
  }

  lemma SameInForce(host: Host, profile: Profile, a: seq<Lease>, b: seq<Lease>, now: int)
    requires SameLeases(a, b)
    ensures SameLeases(InForce(host, profile, a, now), InForce(host, profile, b, now))
  {
    var x, y := InForce(host, profile, a, now), InForce(host, profile, b, now);
    InForceMeans(host, profile, a, now);
    InForceMeans(host, profile, b, now);
    SameLeasesFlip(a, b);
    forall id ensures id in Ids(x) <==> id in Ids(y) {
      if l :| l in x && l.leaseID == id { var m := Counterpart(a, b, l); assert m in y; }
      if m :| m in y && m.leaseID == id { var l := Counterpart(b, a, m); assert l in x; }
    }
  }

  /** The decision depends only on which rules and leases there are, not on how they are listed. */
  lemma DecisionIgnoresOrder(host: Host, p: PolicyDocument, q: PolicyDocument, now: int, event: RuntimeEvent,
                             verifier: Option<Verifier>, a: seq<Lease>, b: seq<Lease>)
    requires SameRules(p, q) && DistinctRuleIds(p) && DistinctRuleIds(q)
    requires SameLeases(a, b) && DistinctLeaseIds(a) && DistinctLeaseIds(b)
    ensures Decide(host, p, now, event, verifier, a) == Decide(host, q, now, event, verifier, b)
  {
    var x, y := InForce(host, p.profile, a, now), InForce(host, q.profile, b, now);
    SameInForce(host, p.profile, a, b, now);
    InForceMeans(host, p.profile, a, now);
    InForceMeans(host, q.profile, b, now);
    SameBest(host, event, x, y);
    NormalizedForgetsOrder(p, q);
    CascadeSees(host, Normalized(p), Normalized(q), event, verifier,
                MatchingLease(host, event, x), MatchingLease(host, event, y));
  }

  // ---------------------------------------------------------------- adding a lease

  /** The added lease matches and comes before the best one so far. */
  predicate Supersedes(host: Host, event: RuntimeEvent, added: Lease, best: Option<Lease>) {
    LeaseMatches(host, event, added) && (best.None? || LeasePrecedes(added, best.value))
  }

  /** An added lease becomes the best one exactly when it supersedes the previous best. */
  lemma AddedLeaseBest(host: Host, event: RuntimeEvent, leases: seq<Lease>, added: Lease)
    requires DistinctLeaseIds(leases + [added])
    ensures var best := MatchingLease(host, event, leases);
            MatchingLease(host, event, leases + [added]) ==
              if Supersedes(host, event, added, best) then Some(added) else best
  {
    var all := leases + [added];
    var best := MatchingLease(host, event, leases);
    assert forall i, j :: 0 <= i < j < |leases| ==> all[i] == leases[i] && all[j] == leases[j];
    BestLeaseExactly(host, event, leases);
    BestLeaseExactly(host, event, all);
    if !LeaseMatches(host, event, added) {
      if best.Some? { assert IsBest(host, event, all, best.value); }
    } else if best.None? {
      assert IsBest(host, event, all, added);
    } else {
      DistinctById(all, added, best.value) by { NotAmong(leases, added); }
      PrecedesTotal(added, best.value);
      if LeasePrecedes(added, best.value) {
        PrecedesRest(host, event, leases, added, best.value);
        assert IsBest(host, event, all, added);
      } else {
        assert IsBest(host, event, all, best.value);
      }
    }
  }

  lemma NotAmong(leases: seq<Lease>, added: Lease)
    requires DistinctLeaseIds(leases + [added])
    ensures added !in leases
  {
    var all := leases + [added];
    forall i | 0 <= i < |leases| ensures leases[i] != added {
      assert all[i].leaseID != all[|leases|].leaseID;
    }
  }

  lemma PrecedesRest(host: Host, event: RuntimeEvent, leases: seq<Lease>, added: Lease, best: Lease)
    requires IsBest(host, event, leases, best) && LeasePrecedes(added, best)
    ensures forall l :: l in leases && LeaseMatches(host, event, l) ==> LeasePrecedes(added, l)
  {
    forall l | l in leases && LeaseMatches(host, event, l) ensures LeasePrecedes(added, l) {
      if l != best { PrecedesTransitive(added, best, l); }
    }
  }

  /** How an event's outcome can depend on leases: a rule any matching lease overrides, a gate only
      a bypass lease opens, or an outcome no lease changes. */
  datatype Kind = Overridable(action: Action) | Gated | Fixed(action: Action)

  function RuleKind(rule: VerificationRule, event: RuntimeEvent, target: string,
                    verifier: Option<Verifier>): Result<Kind> {
    if IsDirectWrite(event.operation) then Success(Gated)
    else if event.sourcePath.None? || verifier.None? then Success(Fixed(Deny))
    else
      var verdict :- verifier.value(rule.verifierCommand, event.sourcePath.value, target);
      match verdict
      case Passed(_) => Success(Fixed(Allow))
      case Blocked(_) => Success(Gated)
      case InfrastructureFailure(_) => Success(Fixed(Deny))
  }

  function KindOf(host: Host, policy: PolicyDocument, event: RuntimeEvent, verifier: Option<Verifier>): Result<Kind> {
    var command :- CommandVerdict(host, policy, event, None);
    if command.Some? then Success(Overridable(command.value.action))
    else match PathRuleFor(host, policy, event)
      case Some(rule) => Success(Overridable(rule.action))
      case None =>
        if event.targetPath.None? then Success(Fixed(Allow)) else
        var rule :- ApplicableRule(host, policy.verificationRules, event, event.targetPath.value);
        if rule.None? then Success(Fixed(Allow))
        else RuleKind(rule.value, event, event.targetPath.value, verifier)
  }

  function ActionUnder(kind: Kind, best: Option<Lease>): Action {
    match kind
    case Overridable(action) => if best.Some? then Allow else action
    case Gated => if Bypasses(best) then Allow else Deny
    case Fixed(action) => action
  }

  lemma {:induction false} CommandScanAction(host: Host, rules: seq<CommandRule>, joined: string, best: Option<Lease>)
    ensures var without, given := CommandScan(host, rules, joined, None), CommandScan(host, rules, joined, best);
            && without.Success? == given.Success?
            && (without.Success? ==> without.value.Some? == given.value.Some?)
            && (without.Success? && without.value.Some? ==>
                  given.value.value.action == ActionUnder(Overridable(without.value.value.action), best))
  {
    if rules != [] { CommandScanAction(host, rules[1..], joined, best); }
  }

  lemma RuleAction(rule: VerificationRule, event: RuntimeEvent, target: string, verifier: Option<Verifier>,
                   best: Option<Lease>)
    ensures var r, kind := RuleVerdict(rule, event, target, verifier, best), RuleKind(rule, event, target, verifier);
            r.Success? == kind.Success? && (r.Success? ==> r.value.action == ActionUnder(kind.value, best))
  {
  }

  lemma PathAction(host: Host, policy: PolicyDocument, event: RuntimeEvent, verifier: Option<Verifier>,
                   best: Option<Lease>)
    requires CommandVerdict(host, policy, event, None) == Success(None)
    ensures var r, kind := PathVerdict(host, policy, event, verifier, best), KindOf(host, policy, event, verifier);
            r.Success? == kind.Success?
            && (r.Success? ==>
                  if r.value.Some? then r.value.value.action == ActionUnder(kind.value, best)
                  else kind.value == Fixed(Allow))
  {
    if event.targetPath.Some? {
      var rule := ApplicableRule(host, policy.verificationRules, event, event.targetPath.value);
      if rule.Success? && rule.value.Some? {
        RuleAction(rule.value.value, event, event.targetPath.value, verifier, best);
      }
    }
  }

  /** What the cascade does under any best lease is fixed by the kind of the event. */
  lemma CascadeAction(host: Host, policy: PolicyDocument, event: RuntimeEvent, verifier: Option<Verifier>,
                      best: Option<Lease>)
    ensures var r, kind := Cascade(host, policy, event, verifier, best), KindOf(host, policy, event, verifier);
            r.Success? == kind.Success? && (r.Success? ==> r.value.action == ActionUnder(kind.value, best))
  {
    if GovernsCommand(event) { CommandScanAction(host, policy.governedCommands, Joined(event.argv.value), best); }
    var command := CommandVerdict(host, policy, event, None);
    if command == Success(None) { PathAction(host, policy, event, verifier, best); }
  }

  function BestFor(host: Host, policy: PolicyDocument, now: int, event: RuntimeEvent,
                   leases: seq<Lease>): Option<Lease> {
    MatchingLease(host, event, InForce(host, policy.profile, leases, now))
  }

  lemma DecideAction(host: Host, policy: PolicyDocument, now: int, event: RuntimeEvent,
                     verifier: Option<Verifier>, leases: seq<Lease>)
    ensures var r := Decide(host, policy, now, event, verifier, leases);
            var kind := KindOf(host, Normalized(policy), event, verifier);
            r.Success? == kind.Success?
            && (r.Success? ==> r.value.action == ActionUnder(kind.value, BestFor(host, policy, now, event, leases)))
  {
    CascadeAction(host, Normalized(policy), event, verifier, BestFor(host, policy, now, event, leases));
  }

  lemma ActionTurns(kind: Kind, best: Option<Lease>, added: Lease, replaced: bool)
    ensures ActionUnder(kind, best) == Allow && ActionUnder(kind, if replaced then Some(added) else best) == Deny
       <==> kind == Gated && Bypasses(best) && !added.bypassVerifier && replaced
  {
  }

  lemma AddedBestFor(host: Host, policy: PolicyDocument, now: int, event: RuntimeEvent, leases: seq<Lease>,
                     added: Lease)
    requires DistinctLeaseIds(leases + [added]) && Usable(host, policy.profile, added, now)
    ensures var best := BestFor(host, policy, now, event, leases);
            BestFor(host, policy, now, event, leases + [added]) ==
              if Supersedes(host, event, added, best) then Some(added) else best
  {
    assert (leases + [added])[..|leases|] == leases;
    InForceMeans(host, policy.profile, leases + [added], now);
    AddedLeaseBest(host, event, InForce(host, policy.profile, leases, now), added);
  }

  /** When adding one usable lease turns an allow into a deny: exactly when the event passes a
      verification gate that the previous best lease bypassed, and the added lease matches, precedes
      it and does not bypass. */
  lemma AddingLeaseDeniesExactly(host: Host, policy: PolicyDocument, now: int, event: RuntimeEvent,
                                 verifier: Option<Verifier>, leases: seq<Lease>, added: Lease)
    requires DistinctLeaseIds(leases + [added]) && Usable(host, policy.profile, added, now)
    ensures var before := Decide(host, policy, now, event, verifier, leases);
            var after := Decide(host, policy, now, event, verifier, leases + [added]);
            var best := BestFor(host, policy, now, event, leases);
            && before.Success? == after.Success?
            && (before.Success? ==>
                  (before.value.action == Allow && after.value.action == Deny
                   <==> && KindOf(host, Normalized(policy), event, verifier) == Success(Gated)
                        && Bypasses(best) && !added.bypassVerifier && Supersedes(host, event, added, best)))
  {
    var kind, best := KindOf(host, Normalized(policy), event, verifier), BestFor(host, policy, now, event, leases);
    if kind.Success? { ActionTurns(kind.value, best, added, Supersedes(host, event, added, best)); }
    AddedBestFor(host, policy, now, event, leases, added);
    DecideAction(host, policy, now, event, verifier, leases);
    DecideAction(host, policy, now, event, verifier, leases + [added]);
  }

  /** A lease that would turn a denial of this kind into an allow. */
  predicate Lifts(host: Host, profile: Profile, event: RuntimeEvent, now: int, kind: Kind, lease: Lease) {
    && Usable(host, profile, lease, now) && LeaseMatches(host, event, lease)
    && (kind.Gated? ==> lease.bypassVerifier) && !kind.Fixed?
  }

  lemma BestIsMatching(host: Host, policy: PolicyDocument, now: int, event: RuntimeEvent, leases: seq<Lease>)
    ensures var best := BestFor(host, policy, now, event, leases);
            best.Some? ==> Usable(host, policy.profile, best.value, now) && LeaseMatches(host, event, best.value)
  {
    var active := InForce(host, policy.profile, leases, now);
    InForceMeans(host, policy.profile, leases, now);
    MatchingMeans(host, event, active);
    SortPermutes(Matching(host, event, active), LeasePrecedes);
    var sorted := Sort(Matching(host, event, active), LeasePrecedes);
    if sorted != [] { assert sorted[0] in sorted; }
  }

  lemma OnlyLeaseIsBest(host: Host, policy: PolicyDocument, now: int, event: RuntimeEvent, lease: Lease)
    requires Usable(host, policy.profile, lease, now) && LeaseMatches(host, event, lease)
    ensures BestFor(host, policy, now, event, [lease]) == Some(lease)
  {
    InForceMeans(host, policy.profile, [lease], now);
    var active := InForce(host, policy.profile, [lease], now);
    BestLeaseExactly(host, event, active);
    assert lease in active;
    assert IsBest(host, event, active, lease);
  }

  /** Which events are denied whatever leases there are: exactly those of a kind that denies without a
      lease and that no lease lifts. A failed verifier and a promotion without source or verifier are
      of a kind that nothing lifts. */
  lemma DeniedWhateverLeasesExactly(host: Host, policy: PolicyDocument, now: int, event: RuntimeEvent,
                                    verifier: Option<Verifier>)
    ensures var kind := KindOf(host, Normalized(policy), event, verifier);
            (forall leases ::
               var r := Decide(host, policy, now, event, verifier, leases);
               r.Success? && r.value.action == Deny)
            <==> && kind.Success? && ActionUnder(kind.value, None) == Deny
                 && forall l :: !Lifts(host, policy.profile, event, now, kind.value, l)
  {
    var kind := KindOf(host, Normalized(policy), event, verifier);
    DecideAction(host, policy, now, event, verifier, []);
    if kind.Success? && ActionUnder(kind.value, None) == Deny {
      if l :| Lifts(host, policy.profile, event, now, kind.value, l) {
        OnlyLeaseIsBest(host, policy, now, event, l);
        DecideAction(host, policy, now, event, verifier, [l]);
        assert Decide(host, policy, now, event, verifier, [l]).value.action == Allow;
      } else {
        forall leases
          ensures Decide(host, policy, now, event, verifier, leases).Success?
          ensures Decide(host, policy, now, event, verifier, leases).value.action == Deny
        {
          DecideAction(host, policy, now, event, verifier, leases);
          BestIsMatching(host, policy, now, event, leases);
          var best := BestFor(host, policy, now, event, leases);
          assert best.Some? ==> !Lifts(host, policy.profile, event, now, kind.value, best.value);
        }
      }
    } else {
      assert Decide(host, policy, now, event, verifier, []).Success? ==>
        Decide(host, policy, now, event, verifier, []).value.action != Deny;
    }
  }

  /** In particular: a verifier that fails denies the promotion it was asked about. */
  lemma InfrastructureFailureDenies(host: Host, policy: PolicyDocument, now: int, event: RuntimeEvent,
                                    verifier: Verifier, rule: VerificationRule, leases: seq<Lease>)
    requires !GovernsCommand(event) && PathRuleFor(host, Normalized(policy), event).None?
    requires event.targetPath.Some? && event.sourcePath.Some? && IsPromotion(event.operation)
    requires ApplicableRule(host, Normalized(policy).verificationRules, event, event.targetPath.value)
               == Success(Some(rule))
    requires var verdict := verifier(rule.verifierCommand, event.sourcePath.value, event.targetPath.value);
             verdict.Success? && verdict.value.InfrastructureFailure?
    ensures Decide(host, policy, now, event, Some(verifier), leases).Success?
    ensures Decide(host, policy, now, event, Some(verifier), leases).value.action == Deny
  {
    CascadeAction(host, Normalized(policy), event, Some(verifier), BestFor(host, policy, now, event, leases));
  }

  /** A lease named in a decision is one of those given, usable, matching and best; and a bypass is
      only ever due to a lease that grants it. */
  lemma NamedLeaseIsBest(host: Host, policy: PolicyDocument, now: int, event: RuntimeEvent,
                         verifier: Option<Verifier>, leases: seq<Lease>)
    requires DistinctLeaseIds(leases)
    ensures var r := Decide(host, policy, now, event, verifier, leases);
            r.Success? && r.value.matchedLeaseID.Some? ==>
              exists l :: l in leases && l.leaseID == r.value.matchedLeaseID.value
                && Usable(host, policy.profile, l, now)
                && IsBest(host, event, InForce(host, policy.profile, leases, now), l)
                && (r.value.verifierBypassed ==> l.bypassVerifier)
  {
    var active := InForce(host, policy.profile, leases, now);
    var best := MatchingLease(host, event, active);
    InForceMeans(host, policy.profile, leases, now);
    BestLeaseExactly(host, event, active);
    NamesBest(host, Normalized(policy), event, verifier, best);
    if best.Some? { assert IsBest(host, event, active, best.value); }
  }

  lemma NamesBest(host: Host, policy: PolicyDocument, event: RuntimeEvent, verifier: Option<Verifier>,
                  best: Option<Lease>)
    ensures var r := Cascade(host, policy, event, verifier, best);
            && (r.Success? && r.value.matchedLeaseID.Some? ==> r.value.matchedLeaseID == LeaseId(best))
            && (r.Success? && r.value.verifierBypassed ==> Bypasses(best))
  {
    if GovernsCommand(event) { ScanNamesBest(host, policy.governedCommands, Joined(event.argv.value), best); }
  }

  lemma {:induction false} ScanNamesBest(host: Host, rules: seq<CommandRule>, joined: string, best: Option<Lease>)
    ensures var r := CommandScan(host, rules, joined, best);
            r.Success? && r.value.Some? ==>
              !r.value.value.verifierBypassed
              && (r.value.value.matchedLeaseID.Some? ==> r.value.value.matchedLeaseID == LeaseId(best))
  {
    if rules != [] { ScanNamesBest(host, rules[1..], joined, best); }
  }
}

/** The data of the CASS policy engine (`PolicyModels.swift`) and the host services it uses. */
module PolicyModels {
  import opened Wrappers
  import opened Ordering

  datatype Profile = Strict | Collaborator

  datatype Operation =
    | OpenWrite | Create | Rename | Unlink | Truncate | SetFlags | SetMode | SetExtAttr
    | CopyFile | Clone | ExchangeData | Exec

  datatype Action = Allow | Deny

  datatype PathRule =
    PathRule(id: string, pathPattern: string, operations: seq<Operation>, action: Action, reason: string)

  datatype CommandRule = CommandRule(id: string, commandRegex: string, action: Action, reason: string)

  datatype VerificationRule =
    VerificationRule(id: string, targetPathRegex: string, verifierCommand: seq<string>, reason: string)

  datatype PolicyDocument = PolicyDocument(
    profile: Profile,
    governedPaths: seq<PathRule>,
    governedCommands: seq<CommandRule>,
    verificationRules: seq<VerificationRule>,
    writableReferencePaths: seq<string>)

  datatype Lease = Lease(
    leaseID: string,
    profile: Profile,
    createdAt: string,
    expiresAt: string,
    pathPatterns: seq<string>,
    operations: seq<Operation>,
    bypassVerifier: bool)

  datatype RuntimeEvent = RuntimeEvent(
    operation: Operation,
    targetPath: Option<string>,
    sourcePath: Option<string>,
    argv: Option<seq<string>>)

  /** The reasons a decision can give; those about a verification rule start with the rule's own text. */
  datatype Reason =
    | RuleSays(text: string)
    | LeaseOverridesCommand | LeaseOverridesPath | LeaseBypassesWriteGate | LeaseBypassesVerifier
    | VerificationPassed
    | SourceMissing(text: string) | VerifierUnavailable(text: string) | VerifierBlocked(text: string)
    | VerifierFailedClosed(text: string) | DirectWriteDenied(text: string)
    | OutsideControlPlane | NoMatchingRule

  datatype Decision = Decision(
    action: Action,
    reason: Reason,
    matchedRuleID: Option<string>,
    matchedLeaseID: Option<string>,
    detail: Option<string>,
    verifierBypassed: bool)

  datatype Verdict = Passed(detail: string) | Blocked(detail: string) | InfrastructureFailure(detail: string)

  /** A verifier may throw; otherwise it answers for a command, a source and a target path. */
  type Verifier = (seq<string>, string, string) -> Result<Verdict>

  /** What the platform provides: date parsing, glob matching of a path's candidates, regular
      expression search (`None` when the pattern is invalid), and absolute paths inside a token. */
  datatype Host = Host(
    date: string -> Option<int>,
    pathMatches: (string, string) -> bool,
    regexFinds: (string, string) -> Option<bool>,
    fragments: string -> seq<string>)

  /** Active from its creation up to but not including its expiry; never if a date is malformed. */
  predicate IsActive(host: Host, lease: Lease, now: int) {
    var created, expires := host.date(lease.createdAt), host.date(lease.expiresAt);
    created.Some? && expires.Some? && created.value <= now < expires.value
  }

  predicate PathRuleLess(a: PathRule, b: PathRule) { StringLess(a.id, b.id) }

  predicate CommandRuleLess(a: CommandRule, b: CommandRule) { StringLess(a.id, b.id) }

  predicate VerificationRuleLess(a: VerificationRule, b: VerificationRule) { StringLess(a.id, b.id) }

  function Normalized(p: PolicyDocument): PolicyDocument {
    PolicyDocument(
      p.profile,
      Sort(p.governedPaths, PathRuleLess),
      Sort(p.governedCommands, CommandRuleLess),
      Sort(p.verificationRules, VerificationRuleLess),
      Sort(p.writableReferencePaths, StringLess))
  }

  ghost predicate DistinctRuleIds(p: PolicyDocument) {
    && (forall i, j :: 0 <= i < j < |p.governedPaths| ==> p.governedPaths[i].id != p.governedPaths[j].id)
    && (forall i, j :: 0 <= i < j < |p.governedCommands| ==> p.governedCommands[i].id != p.governedCommands[j].id)
    && (forall i, j :: 0 <= i < j < |p.verificationRules| ==> p.verificationRules[i].id != p.verificationRules[j].id)
  }

  /** The same rules, listed in another order. */
  ghost predicate SameRules(p: PolicyDocument, q: PolicyDocument) {
    && p.profile == q.profile
    && multiset(p.governedPaths) == multiset(q.governedPaths)
    && multiset(p.governedCommands) == multiset(q.governedCommands)
    && multiset(p.verificationRules) == multiset(q.verificationRules)
    && multiset(p.writableReferencePaths) == multiset(q.writableReferencePaths)
  }

  lemma RuleOrdersStrict()
    ensures IsStrict(PathRuleLess) && IsStrict(CommandRuleLess) && IsStrict(VerificationRuleLess)
  {
    StringStrict();
    forall x, y | PathRuleLess(x, y) ensures !PathRuleLess(y, x) { StringTotal(x.id, y.id); }
    forall x, y, z | PathRuleLess(x, y) && PathRuleLess(y, z) ensures PathRuleLess(x, z) {
      StringTransitive(x.id, y.id, z.id);
    }
    forall x, y | CommandRuleLess(x, y) ensures !CommandRuleLess(y, x) { StringTotal(x.id, y.id); }
    forall x, y, z | CommandRuleLess(x, y) && CommandRuleLess(y, z) ensures CommandRuleLess(x, z) {
      StringTransitive(x.id, y.id, z.id);
    }
    forall x, y | VerificationRuleLess(x, y) ensures !VerificationRuleLess(y, x) { StringTotal(x.id, y.id); }
    forall x, y, z | VerificationRuleLess(x, y) && VerificationRuleLess(y, z) ensures VerificationRuleLess(x, z) {
      StringTransitive(x.id, y.id, z.id);
    }
  }

  /** Normalisation forgets the order in which distinct rules were listed. */
  lemma NormalizedForgetsOrder(p: PolicyDocument, q: PolicyDocument)
    requires SameRules(p, q) && DistinctRuleIds(p) && DistinctRuleIds(q)
    ensures Normalized(p).governedPaths == Normalized(q).governedPaths
    ensures Normalized(p).governedCommands == Normalized(q).governedCommands
    ensures Normalized(p).verificationRules == Normalized(q).verificationRules
    ensures forall s :: s in Normalized(p).writableReferencePaths <==> s in Normalized(q).writableReferencePaths
  {
    RuleOrdersStrict();
    RulesComparable(p);
    RulesComparable(q);
    SortCanonical(p.governedPaths, q.governedPaths, PathRuleLess);
    SortCanonical(p.governedCommands, q.governedCommands, CommandRuleLess);
    SortCanonical(p.verificationRules, q.verificationRules, VerificationRuleLess);
    SortPermutes(p.writableReferencePaths, StringLess);
    SortPermutes(q.writableReferencePaths, StringLess);
    SameElements(p.writableReferencePaths, q.writableReferencePaths);
  }

  lemma RulesComparable(p: PolicyDocument)
    requires DistinctRuleIds(p)
    ensures Comparable(p.governedPaths, PathRuleLess)
    ensures Comparable(p.governedCommands, CommandRuleLess)
    ensures Comparable(p.verificationRules, VerificationRuleLess)
  {
    forall a: string, b: string ensures a == b || StringLess(a, b) || StringLess(b, a) { StringTotal(a, b); }
  }
}

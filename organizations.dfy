/**
 * `App\Models\Organization`: the subscription plan of an organization and the
 * limits that plan sets. Cashier's `subscribed('default')` and the
 * subscription's `stripe_price` arrive as the row's `Billing`; the
 * `config('subscriptions...')` tables arrive as a `Config`.
 */
module Organizations {
  import opened Wrappers
  import opened Entities
  import opened Sorting

  datatype Plan = Free | Pro | Ultimate

  function PlanName(p: Plan): string {
    match p
    case Free => "free"
    case Pro => "pro"
    case Ultimate => "ultimate"
  }

  /** The configured Stripe price ids of the paid plans; an unset entry reads as null. */
  datatype Prices = Prices(
    proMonthly: Option<string>,
    proYearly: Option<string>,
    ultimateMonthly: Option<string>,
    ultimateYearly: Option<string>)

  /** One plan's settings: `task_limit` (null means unbounded) and `projects_enabled`. */
  datatype PlanSettings = PlanSettings(taskLimit: Option<int>, projectsEnabled: Option<bool>)

  datatype Config = Config(prices: Prices, plans: map<Plan, PlanSettings>)

  /**
   * getCurrentPlan: 'free' without an active subscription; otherwise the first
   * `match` arm whose configured price is identical (PHP `===`) to the
   * subscription's price, and 'free' when none is.
   */
  function CurrentPlan(billing: Billing, cfg: Config): (p: Plan)
    ensures !billing.subscribed ==> p == Free
    ensures p == Pro <==>
      billing.subscribed && billing.stripePrice in {cfg.prices.proMonthly, cfg.prices.proYearly}
    ensures p == Ultimate <==>
      && billing.subscribed
      && billing.stripePrice !in {cfg.prices.proMonthly, cfg.prices.proYearly}
      && billing.stripePrice in {cfg.prices.ultimateMonthly, cfg.prices.ultimateYearly}
  {
    if !billing.subscribed then Free
    else if billing.stripePrice == cfg.prices.proMonthly || billing.stripePrice == cfg.prices.proYearly then Pro
    else if billing.stripePrice == cfg.prices.ultimateMonthly || billing.stripePrice == cfg.prices.ultimateYearly then Ultimate
    else Free
  }

  /** getTaskLimit: the current plan's `task_limit`, null when the plan has no entry. */
  function TaskLimit(org: OrganizationRow, cfg: Config): Option<int> {
    var plan := CurrentPlan(org.billing, cfg);
    if plan in cfg.plans then cfg.plans[plan].taskLimit else None
  }

  /** A task the organization's `tasks()` relation counts: its own, and not soft-deleted. */
  predicate CountsFor(orgId: nat, t: TaskRow) {
    t.organizationId == orgId && !t.Trashed()
  }

  /** The condition of `$organization->tasks()` as a row filter. */
  function OfOrganization(orgId: nat): TaskRow -> bool {
    t => CountsFor(orgId, t)
  }

  /**
   * tasksCount: the number of the organization's tasks, trashed ones
   * excluded; it is the length of any listing of those tasks.
   */
  function TasksCount(org: OrganizationRow, tasks: seq<TaskRow>): (n: nat)
    ensures forall r :: IsListing(r, tasks, OfOrganization(org.id), TaskNewerOrSame) ==> |r| == n
  {
    var kept := Filter(tasks, OfOrganization(org.id));
    assert forall r :: IsListing(r, tasks, OfOrganization(org.id), TaskNewerOrSame) ==> multiset(r) == multiset(kept);
    |kept|
  }

  /** canCreateTask: always with an unbounded plan, otherwise while the count is below the limit. */
  function CanCreateTask(org: OrganizationRow, cfg: Config, tasks: seq<TaskRow>): (ok: bool)
    ensures TaskLimit(org, cfg).None? ==> ok
    ensures TaskLimit(org, cfg).Some? ==> (ok <==> TasksCount(org, tasks) < TaskLimit(org, cfg).value)
  {
    var limit := TaskLimit(org, cfg);
    if limit.None? then true else TasksCount(org, tasks) < limit.value
  }

  /** canAccessProjects: the plan's `projects_enabled`, false when it is not configured. */
  function CanAccessProjects(org: OrganizationRow, cfg: Config): (ok: bool)
    ensures ok <==>
      var plan := CurrentPlan(org.billing, cfg);
      plan in cfg.plans && cfg.plans[plan].projectsEnabled == Some(true)
  {
    var plan := CurrentPlan(org.billing, cfg);
    if plan in cfg.plans && cfg.plans[plan].projectsEnabled.Some? then cfg.plans[plan].projectsEnabled.value
    else false
  }

  /** What the subscription tests assert of the free plan: 10 tasks, no projects. */
  predicate FreePlanAsTested(cfg: Config) {
    && Free in cfg.plans
    && cfg.plans[Free].taskLimit == Some(10)
    && cfg.plans[Free].projectsEnabled != Some(true)
  }

  /** A free organization may create its first tasks and is blocked at exactly ten. */
  lemma FreePlanQuota(org: OrganizationRow, cfg: Config, tasks: seq<TaskRow>)
    requires FreePlanAsTested(cfg)
    requires !org.billing.subscribed
    ensures TaskLimit(org, cfg) == Some(10)
    ensures CanCreateTask(org, cfg, tasks) <==> TasksCount(org, tasks) < 10
    ensures TasksCount(org, tasks) == 0 ==> CanCreateTask(org, cfg, tasks)
    ensures TasksCount(org, tasks) == 10 ==> !CanCreateTask(org, cfg, tasks)
  {
  }

  /** A free organization is denied projects. */
  lemma FreePlanDeniesProjects(org: OrganizationRow, cfg: Config)
    requires FreePlanAsTested(cfg)
    requires CurrentPlan(org.billing, cfg) == Free
    ensures !CanAccessProjects(org, cfg)
  {
  }

  /** More tasks never re-open the gate: the decision is antitone in the count. */
  lemma MoreTasksNeverUnblock(org: OrganizationRow, cfg: Config, fewer: seq<TaskRow>, more: seq<TaskRow>)
    requires TasksCount(org, fewer) <= TasksCount(org, more)
    ensures CanCreateTask(org, cfg, more) ==> CanCreateTask(org, cfg, fewer)
  {
  }

  /**
   * With every price configured and distinct, a subscription's plan is the
   * one whose price it carries, and an unknown price falls back to free.
   */
  lemma PlanFollowsPrice(billing: Billing, cfg: Config)
    requires billing.subscribed
    requires cfg.prices.proMonthly.Some? && cfg.prices.proYearly.Some?
    requires cfg.prices.ultimateMonthly.Some? && cfg.prices.ultimateYearly.Some?
    requires cfg.prices.ultimateMonthly !in {cfg.prices.proMonthly, cfg.prices.proYearly}
    requires cfg.prices.ultimateYearly !in {cfg.prices.proMonthly, cfg.prices.proYearly}
    ensures billing.stripePrice in {cfg.prices.ultimateMonthly, cfg.prices.ultimateYearly} ==> CurrentPlan(billing, cfg) == Ultimate
    ensures billing.stripePrice.None? ==> CurrentPlan(billing, cfg) == Free
    ensures CurrentPlan(billing, cfg) == Free <==>
      billing.stripePrice !in {cfg.prices.proMonthly, cfg.prices.proYearly, cfg.prices.ultimateMonthly, cfg.prices.ultimateYearly}
  {
  }
}

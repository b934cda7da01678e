/** Routing a task to a model and an effort: app/router.py. */
module Router {
  import opened Bytes

  datatype TaskClass = T0 | T1 | T2 | T3 | T4 | T5

  datatype Family = Spark | Mini | Luna | F54 | Terra | F55 | Sol

  datatype Status = Available | Limited | Depleted | Unknown | Disabled

  datatype Account = Normal | Conserve | Critical | Blocked | UnknownAccount

  /** A model of the server's list; its grade is that of its family. */
  datatype CatalogModel = CatalogModel(id: string, name: string, family: Option<Family>, efforts: seq<string>, status: Status)

  /** str.strip and str.casefold. */
  datatype Lexicon = Lexicon(strip: string -> string, casefold: string -> string)

  /** A text that folds to "ultra" has no blanks around it, and the empty text stays empty. */
  ghost predicate IsSane(lex: Lexicon) {
    && (forall s :: lex.casefold(s) == "ultra" ==> lex.casefold(lex.strip(s)) == "ultra")
    && lex.casefold(lex.strip("")) == ""
  }

  function TaskFamilies(task: TaskClass): (families: seq<Family>) {
    match task
    case T0 => [Spark]
    case T1 => [Spark, Mini]
    case T2 => [Mini, Luna]
    case T3 => [F54, Terra]
    case T4 => [Terra, F54]
    case T5 => [Sol, F55]
  }

  function TaskMinGrade(task: TaskClass): (grade: nat) {
    match task case T0 => 0 case T1 => 0 case T2 => 1 case T3 => 3 case T4 => 3 case T5 => 5
  }

  function TaskMinStage(task: TaskClass): (stage: nat) {
    match task case T0 => 1 case T1 => 2 case T2 => 2 case T3 => 2 case T4 => 3 case T5 => 4
  }

  function FamilyGrade(f: Family): (grade: nat) {
    match f case Spark => 0 case Mini => 1 case Luna => 2 case F54 => 3 case Terra => 4 case F55 => 5 case Sol => 6
  }

  const ULTRA: nat := 5

  // --------------------------------------------------------------------------- efforts

  function Dashed(s: string): (t: string) {
    seq(|s|, i requires 0 <= i < |s| => if s[i] == '_' || s[i] == ' ' then '-' else s[i])
  }

  function StageOf(word: string): (stage: Option<nat>) {
    if word == "low" then Some(0)
    else if word == "medium" then Some(1)
    else if word == "high" then Some(2)
    else if word in ["xhigh", "x-high", "veryhigh", "very-high",
                     "\U{B9E4}\U{C6B0}\U{B192}\U{C74C}", "\U{B9E4}\U{C6B0}-\U{B192}\U{C74C}"] then Some(3)
    else if word == "max" then Some(4)
    else if word == "ultra" then Some(ULTRA)
    else None
  }

  function EffortStage(lex: Lexicon, effort: string): (stage: Option<nat>) {
    StageOf(Dashed(lex.casefold(lex.strip(effort))))
  }

  predicate IsUltra(lex: Lexicon, m: CatalogModel, effort: string) {
    lex.casefold(effort) == "ultra" && m.family in {Some(Sol), Some(Terra), Some(Luna)}
  }

  lemma UltraStage(lex: Lexicon, m: CatalogModel, effort: string)
    requires IsSane(lex) && IsUltra(lex, m, effort)
    ensures EffortStage(lex, effort) == Some(ULTRA)
  {
    assert Dashed("ultra") == "ultra";
  }

  /** The element at `i` passes a test, and none before it does. */
  ghost predicate IsFirst<T>(items: seq<T>, test: T -> bool, i: nat) {
    i < |items| && test(items[i]) && forall j :: 0 <= j < i ==> !test(items[j])
  }

  lemma FirstCons<T>(items: seq<T>, test: T -> bool)
    requires items != [] && !test(items[0])
    ensures forall i: nat :: IsFirst(items[1..], test, i) ==> IsFirst(items, test, i + 1)
  {
    forall i: nat | IsFirst(items[1..], test, i) ensures IsFirst(items, test, i + 1) {
      forall j | 0 <= j < i + 1 ensures !test(items[j]) {
        if j > 0 {
          assert items[1..][j - 1] == items[j];
        }
      }
    }
  }

  /** The first effort that passes a test, in the order the server lists them. */
  function FirstEffort(efforts: seq<string>, test: string -> bool): (effort: Option<string>)
    ensures effort.Some? ==> effort.value in efforts && test(effort.value)
    ensures effort.None? ==> forall e :: e in efforts ==> !test(e)
  {
    if efforts == [] then None
    else if test(efforts[0]) then Some(efforts[0])
    else FirstEffort(efforts[1..], test)
  }

  function LastEffort(efforts: seq<string>, test: string -> bool): (effort: Option<string>)
    ensures effort.Some? ==> effort.value in efforts && test(effort.value)
    ensures effort.None? ==> forall e :: e in efforts ==> !test(e)
    decreases |efforts|
  {
    if efforts == [] then None
    else
      var last := efforts[|efforts| - 1];
      assert efforts == efforts[..|efforts| - 1] + [last];
      if test(last) then Some(last) else LastEffort(efforts[..|efforts| - 1], test)
  }

  predicate IsBelowUltra(lex: Lexicon, effort: string) {
    EffortStage(lex, effort).Some? && EffortStage(lex, effort).value < ULTRA
  }

  function LiteralAtStage(lex: Lexicon, m: CatalogModel, stage: nat): (effort: Option<string>)
    ensures effort.Some? ==> effort.value in m.efforts && EffortStage(lex, effort.value) == Some(stage)
  {
    FirstEffort(m.efforts, e => EffortStage(lex, e) == Some(stage))
  }

  predicate IsBetween(lex: Lexicon, minimum: nat, effort: string, ceiling: nat) {
    IsBelowUltra(lex, effort) && minimum <= EffortStage(lex, effort).value <= ceiling
  }

  function SelectEffort(lex: Lexicon, m: CatalogModel, minimum: nat, ceiling: nat): (effort: Option<string>)
    ensures effort.Some? ==> effort.value in m.efforts && IsBetween(lex, minimum, effort.value, ceiling)
    ensures effort.None? ==> forall e :: e in m.efforts ==> !IsBetween(lex, minimum, e, ceiling)
  {
    if ceiling < minimum then None else FirstEffort(m.efforts, e => IsBetween(lex, minimum, e, ceiling))
  }

  /** `_highest_non_ultra_effort`: the last one listed. */
  function LastNonUltra(lex: Lexicon, m: CatalogModel): (effort: Option<string>)
    ensures effort.Some? ==> effort.value in m.efforts && IsBelowUltra(lex, effort.value)
  {
    LastEffort(m.efforts, e => IsBelowUltra(lex, e))
  }

  /** The highest advertised stage below Ultra. */
  function MaxStage(lex: Lexicon, efforts: seq<string>): (stage: Option<nat>)
    ensures stage.Some? <==> exists e :: e in efforts && IsBelowUltra(lex, e)
    ensures stage.Some? ==>
              && (exists e :: e in efforts && EffortStage(lex, e) == stage && IsBelowUltra(lex, e))
              && forall e :: e in efforts && IsBelowUltra(lex, e) ==> EffortStage(lex, e).value <= stage.value
  {
    if efforts == [] then None
    else
      var rest := MaxStage(lex, efforts[1..]);
      if !IsBelowUltra(lex, efforts[0]) then rest
      else
        var first := EffortStage(lex, efforts[0]);
        if rest.Some? && rest.value >= first.value then rest else first
  }

  function MinimumStage(lex: Lexicon, task: TaskClass, files: int, m: CatalogModel): (stage: nat) {
    if task == T5 && m.family == Some(F55) && MaxStage(lex, m.efforts).Some? then MaxStage(lex, m.efforts).value
    else if task == T3 && files >= 4 then 3
    else TaskMinStage(task)
  }

  /** An optional text that is true in Python: given and not empty. */
  predicate IsGiven(text: Option<string>) {
    text.Some? && text.value != ""
  }

  // ---------------------------------------------------------------------------- ladder

  const ALL_FAMILIES: seq<Family> := [Sol, F55, Terra, F54, Luna, Mini, Spark]

  /** The families a task prefers, then the others from the highest grade down. */
  function LadderFamilies(task: TaskClass, n: nat): (families: seq<Family>)
    requires n <= |ALL_FAMILIES|
  {
    if n == 0 then TaskFamilies(task)
    else
      var before := LadderFamilies(task, n - 1);
      if ALL_FAMILIES[n - 1] in before then before else before + [ALL_FAMILIES[n - 1]]
  }

  predicate IsOnLadder(m: CatalogModel, f: Family, task: TaskClass, maximum: nat) {
    m.family == Some(f) && TaskMinGrade(task) <= FamilyGrade(f) <= maximum
  }

  /** The ladder after looking for one family in the first `k` models. */
  function AddFamily(ladder: seq<CatalogModel>, catalog: seq<CatalogModel>, k: nat, f: Family, task: TaskClass,
                     maximum: nat): (more: seq<CatalogModel>)
    requires k <= |catalog|
  {
    if k == 0 then ladder
    else
      var before, m := AddFamily(ladder, catalog, k - 1, f, task, maximum), catalog[k - 1];
      if IsOnLadder(m, f, task, maximum) && m !in before then before + [m] else before
  }

  function AddFamilies(families: seq<Family>, n: nat, catalog: seq<CatalogModel>, task: TaskClass, maximum: nat)
    : (ladder: seq<CatalogModel>)
    requires n <= |families|
  {
    if n == 0 then []
    else
      AddFamily(AddFamilies(families, n - 1, catalog, task, maximum), catalog, |catalog|, families[n - 1], task, maximum)
  }

  function Ladder(catalog: seq<CatalogModel>, task: TaskClass, maximum: nat): (ladder: seq<CatalogModel>) {
    var families := LadderFamilies(task, |ALL_FAMILIES|);
    AddFamilies(families, |families|, catalog, task, maximum)
  }

  method BuildLadder(catalog: seq<CatalogModel>, task: TaskClass, maximum: nat) returns (ladder: seq<CatalogModel>)
    ensures ladder == Ladder(catalog, task, maximum)
  {
    var families := TaskFamilies(task);
    for i := 0 to |ALL_FAMILIES|
      invariant families == LadderFamilies(task, i)
    {
      if ALL_FAMILIES[i] !in families {
        families := families + [ALL_FAMILIES[i]];
      }
    }
    ladder := [];
    for i := 0 to |families|
      invariant ladder == AddFamilies(families, i, catalog, task, maximum)
    {
      ghost var before := ladder;
      for k := 0 to |catalog|
        invariant ladder == AddFamily(before, catalog, k, families[i], task, maximum)
      {
        var m := catalog[k];
        if m.family == Some(families[i]) && TaskMinGrade(task) <= FamilyGrade(families[i]) <= maximum && m !in ladder {
          ladder := ladder + [m];
        }
      }
    }
  }

  // --------------------------------------------------------------------------- preview

  datatype Request = Request(
    task: TaskClass, files: int, hasTests: bool, readOnly: bool, lowRisk: bool, account: Account,
    model: Option<string>, effort: Option<string>,
    parallelAudit: bool, independentAxes: int, ultraApproved: bool)

  datatype Reason =
    | NoRecommendation | NotInCatalog | AccountBlocked | AccountCritical | TooManyFiles | BelowMinimumGrade
    | UnknownEffort | NoLiteralAtStage | BelowMinimumEffort | UltraUnavailable | NotRoutable

  datatype Choice = AsUltra | InsteadOfUltra | Lowered | AsRecommended

  datatype Preview = Hold(reason: Reason) | Route(model: CatalogModel, effort: string, choice: Choice)

  predicate TooMany(task: TaskClass, files: int) {
    match task case T1 => files > 2 case T2 => files > 5 case T3 => files > 10 case _ => false
  }

  function WithId(catalog: seq<CatalogModel>, id: string): (m: Option<CatalogModel>) {
    if catalog == [] then None
    else if catalog[0].id == id then Some(catalog[0])
    else WithId(catalog[1..], id)
  }

  predicate IsUsable(m: CatalogModel) {
    m.status in {Available, Limited}
  }

  /** Whether a model may be lowered at all, and by how many grades. */
  function DowngradePolicy(r: Request): (policy: (bool, Option<nat>)) {
    if !r.lowRisk then (false, None)
    else if r.readOnly then (true, None)
    else if !r.hasTests then (false, None)
    else (true, Some(2))
  }

  predicate UltraConditions(r: Request) {
    && r.readOnly && r.parallelAudit && r.independentAxes >= 3 && r.ultraApproved
    && r.account !in {Conserve, Critical}
  }

  predicate IsLower(m: CatalogModel, best: CatalogModel, limit: Option<nat>)
    requires best.family.Some?
  {
    && m.id != best.id && m.family.Some?
    && FamilyGrade(m.family.value) < FamilyGrade(best.family.value)
    && (limit.Some? ==> FamilyGrade(best.family.value) - FamilyGrade(m.family.value) <= limit.value)
  }

  /** A lower candidate with a given status and an effort within the limits. */
  predicate IsEligible(lex: Lexicon, r: Request, m: CatalogModel, best: CatalogModel, limit: Option<nat>, ceiling: nat,
                       status: Status)
    requires best.family.Some?
  {
    IsLower(m, best, limit) && m.status == status
    && IsGiven(SelectEffort(lex, m, MinimumStage(lex, r.task, r.files, m), ceiling))
  }

  function FirstModel(models: seq<CatalogModel>, test: CatalogModel -> bool): (m: Option<CatalogModel>)
    ensures m.Some? ==> m.value in models && test(m.value)
    ensures m.None? ==> forall x :: x in models ==> !test(x)
  {
    if models == [] then None
    else if test(models[0]) then Some(models[0])
    else FirstModel(models[1..], test)
  }

  lemma {:induction false} FirstModelIsFirst(models: seq<CatalogModel>, test: CatalogModel -> bool)
    requires FirstModel(models, test).Some?
    ensures exists i: nat :: IsFirst(models, test, i) && models[i] == FirstModel(models, test).value
  {
    if test(models[0]) {
      assert IsFirst(models, test, 0);
    } else {
      FirstModelIsFirst(models[1..], test);
      FirstCons(models, test);
      var i: nat :| IsFirst(models[1..], test, i) && models[1..][i] == FirstModel(models, test).value;
      assert IsFirst(models, test, i + 1) && models[i + 1] == FirstModel(models, test).value;
    }
  }

  /** The lower model chosen, if any: the first available one, else the first limited one. */
  function LowerChoice(lex: Lexicon, r: Request, ladder: seq<CatalogModel>, best: CatalogModel, ceiling: nat)
    : (m: Option<CatalogModel>)
    requires best.family.Some?
  {
    var (automatic, limit) := DowngradePolicy(r);
    if !automatic then None
    else
      var available := FirstModel(ladder, m => IsEligible(lex, r, m, best, limit, ceiling, Available));
      if available.Some? then available
      else FirstModel(ladder, m => IsEligible(lex, r, m, best, limit, ceiling, Limited))
  }

  /** The recommendation passes with its stage and the literal the model has for it. */
  datatype Check = Failed(reason: Reason) | Passed(stage: nat, literal: string)

  /** The checks before the recommendation is used, in order. */
  function CheckRequest(lex: Lexicon, r: Request, best: CatalogModel, effort: string): (c: Check)
    requires best.family.Some?
  {
    hide MinimumStage, LiteralAtStage;
    if r.account == Blocked then Failed(AccountBlocked)
    else if r.account == Critical && r.task in {T3, T4, T5} then Failed(AccountCritical)
    else if TooMany(r.task, r.files) then Failed(TooManyFiles)
    else if FamilyGrade(best.family.value) < TaskMinGrade(r.task) then Failed(BelowMinimumGrade)
    else
      match EffortStage(lex, effort)
      case None => Failed(UnknownEffort)
      case Some(stage) =>
        match LiteralAtStage(lex, best, stage)
        case None => Failed(NoLiteralAtStage)
        case Some(literal) =>
          if stage < MinimumStage(lex, r.task, r.files, best) then Failed(BelowMinimumEffort) else Passed(stage, literal)
  }

  function UltraPreview(lex: Lexicon, r: Request, best: CatalogModel, literal: string): (p: Preview) {
    hide EffortStage, MinimumStage, LastNonUltra;
    if UltraConditions(r) && IsUsable(best) then Route(best, literal, AsUltra)
    else
      var fallback := LastNonUltra(lex, best);
      if IsGiven(fallback) && EffortStage(lex, fallback.value).value >= MinimumStage(lex, r.task, r.files, best)
         && IsUsable(best)
      then Route(best, fallback.value, InsteadOfUltra)
      else Hold(UltraUnavailable)
  }

  function OrdinaryPreview(lex: Lexicon, r: Request, ladder: seq<CatalogModel>, best: CatalogModel, stage: nat,
                           literal: string): (p: Preview)
    requires best.family.Some?
  {
    hide MinimumStage, EffortStage;
    var lower := LowerChoice(lex, r, ladder, best, stage);
    if lower.Some? then
      var m := lower.value;
      Route(m, SelectEffort(lex, m, MinimumStage(lex, r.task, r.files, m), stage).value, Lowered)
    else
      var own := MinimumStage(lex, r.task, r.files, best);
      var effort := if DowngradePolicy(r).0 then SelectEffort(lex, best, own, stage) else Some(literal);
      if IsUsable(best) && IsGiven(effort) then Route(best, effort.value, AsRecommended) else Hold(NotRoutable)
  }

  function RoutePreview(lex: Lexicon, r: Request, catalog: seq<CatalogModel>): (p: Preview) {
    hide EffortStage, MinimumStage, Ladder, WithId, UltraPreview, OrdinaryPreview, CheckRequest, IsUltra;
    if !IsGiven(r.model) || !IsGiven(r.effort) then Hold(NoRecommendation)
    else
      match WithId(catalog, r.model.value)
      case None => Hold(NotInCatalog)
      case Some(best) =>
        if best.family == None then Hold(NotInCatalog)
        else
          match CheckRequest(lex, r, best, r.effort.value)
          case Failed(reason) => Hold(reason)
          case Passed(stage, literal) =>
            if IsUltra(lex, best, r.effort.value) then UltraPreview(lex, r, best, literal)
            else
              OrdinaryPreview(lex, r, Ladder(catalog, r.task, FamilyGrade(best.family.value)), best, stage, literal)
  }

  // ---------------------------------------------------------------------------- safety

  lemma {:induction false} FoundById(catalog: seq<CatalogModel>, id: string)
    ensures WithId(catalog, id).Some? ==> WithId(catalog, id).value in catalog && WithId(catalog, id).value.id == id
    ensures WithId(catalog, id).None? ==> forall m :: m in catalog ==> m.id != id
  {
    if catalog != [] {
      FoundById(catalog[1..], id);
    }
  }

  lemma {:induction false} AddedFromCatalog(ladder: seq<CatalogModel>, catalog: seq<CatalogModel>, k: nat, f: Family,
                                            task: TaskClass, maximum: nat)
    requires k <= |catalog|
    ensures forall m :: m in AddFamily(ladder, catalog, k, f, task, maximum) <==>
              m in ladder || (m in catalog[..k] && IsOnLadder(m, f, task, maximum))
  {
    if k > 0 {
      AddedFromCatalog(ladder, catalog, k - 1, f, task, maximum);
      assert catalog[..k] == catalog[..k - 1] + [catalog[k - 1]];
    }
  }

  lemma {:induction false} AllFromCatalog(families: seq<Family>, n: nat, catalog: seq<CatalogModel>, task: TaskClass, maximum: nat)
    requires n <= |families|
    ensures forall m :: m in AddFamilies(families, n, catalog, task, maximum) <==>
              m in catalog && exists i :: 0 <= i < n && IsOnLadder(m, families[i], task, maximum)
  {
    if n > 0 {
      AllFromCatalog(families, n - 1, catalog, task, maximum);
      AddedFromCatalog(AddFamilies(families, n - 1, catalog, task, maximum), catalog, |catalog|, families[n - 1], task, maximum);
      assert catalog[..|catalog|] == catalog;
    }
  }

  lemma {:induction false} EveryFamily(task: TaskClass, n: nat)
    requires n <= |ALL_FAMILIES|
    ensures forall i :: 0 <= i < n ==> ALL_FAMILIES[i] in LadderFamilies(task, n)
  {
    if n > 0 {
      EveryFamily(task, n - 1);
    }
  }

  /** The ladder holds exactly the models of the catalogue with a grade within the limits. */
  lemma LadderExactly(catalog: seq<CatalogModel>, task: TaskClass, maximum: nat)
    ensures forall m :: m in Ladder(catalog, task, maximum) <==>
              m in catalog && m.family.Some? && TaskMinGrade(task) <= FamilyGrade(m.family.value) <= maximum
  {
    var families := LadderFamilies(task, |ALL_FAMILIES|);
    EveryFamily(task, |ALL_FAMILIES|);
    AllFromCatalog(families, |families|, catalog, task, maximum);
    hide AddFamilies, LadderFamilies;
    forall m: CatalogModel | m.family.Some? && TaskMinGrade(task) <= FamilyGrade(m.family.value) <= maximum
      ensures exists i :: 0 <= i < |families| && IsOnLadder(m, families[i], task, maximum)
    {
      var f := m.family.value;
      assert f == ALL_FAMILIES[match f case Sol => 0 case F55 => 1 case Terra => 2 case F54 => 3 case Luna => 4 case Mini => 5 case Spark => 6];
      assert f in families;
    }
  }

  /** A usable model of the catalogue, with a grade between the minimum of its task class and the recommended one. */
  ghost predicate IsModelSafe(r: Request, catalog: seq<CatalogModel>, best: CatalogModel, m: CatalogModel) {
    && m in catalog && IsUsable(m) && m.family.Some? && best.family.Some?
    && TaskMinGrade(r.task) <= FamilyGrade(m.family.value) <= FamilyGrade(best.family.value)
  }

  /** An advertised effort between the model's own minimum and the recommended stage. */
  ghost predicate IsEffortSafe(lex: Lexicon, r: Request, m: CatalogModel, stage: nat, effort: string) {
    && effort in m.efforts && EffortStage(lex, effort).Some?
    && MinimumStage(lex, r.task, r.files, m) <= EffortStage(lex, effort).value <= stage
  }

  /** No available candidate of the ladder is eligible. */
  ghost predicate NoneAvailable(lex: Lexicon, r: Request, catalog: seq<CatalogModel>, best: CatalogModel, stage: nat)
    requires best.family.Some?
  {
    forall x :: x in Ladder(catalog, r.task, FamilyGrade(best.family.value)) ==>
      !IsEligible(lex, r, x, best, DowngradePolicy(r).1, stage, Available)
  }

  /** Another model of a lower grade, and unless the task only reads, by at most two grades. */
  predicate IsWithinGrades(r: Request, m: CatalogModel, best: CatalogModel)
    requires best.family.Some?
  {
    && m.id != best.id && m.family.Some?
    && FamilyGrade(m.family.value) < FamilyGrade(best.family.value)
    && (!r.readOnly ==> FamilyGrade(best.family.value) <= FamilyGrade(m.family.value) + 2)
  }

  /** When each choice may be made. */
  ghost predicate IsChoiceSafe(lex: Lexicon, r: Request, catalog: seq<CatalogModel>, best: CatalogModel, stage: nat,
                               p: Preview)
    requires p.Route? && best.family.Some?
  {
    match p.choice
    case AsUltra => p.model == best && UltraConditions(r)
    case InsteadOfUltra => p.model == best && IsBelowUltra(lex, p.effort)
    case AsRecommended => p.model == best
    case Lowered =>
      && IsBelowUltra(lex, p.effort) && r.lowRisk && (r.readOnly || r.hasTests)
      && IsWithinGrades(r, p.model, best)
      && (p.model.status == Limited ==> NoneAvailable(lex, r, catalog, best, stage))
  }

  /** `best` being the recommended model and `stage` the recommended stage. */
  ghost predicate IsSafe(lex: Lexicon, r: Request, catalog: seq<CatalogModel>, best: CatalogModel, stage: nat, p: Preview)
    requires best.family.Some?
  {
    p.Route? ==>
      && IsModelSafe(r, catalog, best, p.model)
      && IsEffortSafe(lex, r, p.model, stage, p.effort)
      && IsChoiceSafe(lex, r, catalog, best, stage, p)
  }

  lemma CheckPassed(lex: Lexicon, r: Request, best: CatalogModel, effort: string)
    requires best.family.Some? && CheckRequest(lex, r, best, effort).Passed?
    ensures var c := CheckRequest(lex, r, best, effort);
            && TaskMinGrade(r.task) <= FamilyGrade(best.family.value)
            && EffortStage(lex, effort) == Some(c.stage)
            && c.literal in best.efforts && EffortStage(lex, c.literal) == Some(c.stage)
            && MinimumStage(lex, r.task, r.files, best) <= c.stage
            && r.account != Blocked && !(r.account == Critical && r.task in {T3, T4, T5}) && !TooMany(r.task, r.files)
  {
    hide MinimumStage, EffortStage;
  }

  lemma UltraIsSafe(lex: Lexicon, r: Request, catalog: seq<CatalogModel>, best: CatalogModel, literal: string)
    requires best in catalog && best.family.Some? && TaskMinGrade(r.task) <= FamilyGrade(best.family.value)
    requires MinimumStage(lex, r.task, r.files, best) <= ULTRA
    requires literal in best.efforts && EffortStage(lex, literal) == Some(ULTRA)
    ensures IsSafe(lex, r, catalog, best, ULTRA, UltraPreview(lex, r, best, literal))
  {
    hide EffortStage, MinimumStage, LastNonUltra, UltraConditions, TaskMinGrade, FamilyGrade;
  }

  /** The lowered model is a lower one, within the limits, and the first such of its status. */
  lemma LowerIsSafe(lex: Lexicon, r: Request, catalog: seq<CatalogModel>, best: CatalogModel, stage: nat)
    requires best in catalog && best.family.Some?
    ensures var limit, ladder := DowngradePolicy(r).1, Ladder(catalog, r.task, FamilyGrade(best.family.value));
            var lower := LowerChoice(lex, r, ladder, best, stage);
            lower.Some? ==>
              var m := lower.value;
              && DowngradePolicy(r).0 && m in catalog && IsLower(m, best, limit)
              && TaskMinGrade(r.task) <= FamilyGrade(m.family.value)
              && IsUsable(m)
              && IsGiven(SelectEffort(lex, m, MinimumStage(lex, r.task, r.files, m), stage))
              && (m.status == Limited ==>
                    forall x :: x in ladder ==> !IsEligible(lex, r, x, best, limit, stage, Available))
  {
    LadderExactly(catalog, r.task, FamilyGrade(best.family.value));
    hide Ladder, MinimumStage, SelectEffort, TaskMinGrade, FamilyGrade;
  }

  lemma LowerRouteIsSafe(lex: Lexicon, r: Request, catalog: seq<CatalogModel>, best: CatalogModel, stage: nat)
    requires best in catalog && best.family.Some?
    ensures var lower := LowerChoice(lex, r, Ladder(catalog, r.task, FamilyGrade(best.family.value)), best, stage);
            lower.Some? ==>
              var m := lower.value;
              && SelectEffort(lex, m, MinimumStage(lex, r.task, r.files, m), stage).Some?
              && var effort := SelectEffort(lex, m, MinimumStage(lex, r.task, r.files, m), stage).value;
              && IsModelSafe(r, catalog, best, m) && IsEffortSafe(lex, r, m, stage, effort)
              && IsChoiceSafe(lex, r, catalog, best, stage, Route(m, effort, Lowered))
  {
    LowerIsSafe(lex, r, catalog, best, stage);
    hide Ladder, MinimumStage, EffortStage, SelectEffort, LowerChoice, TaskMinGrade, FamilyGrade, IsEligible;
  }

  lemma OrdinaryIsSafe(lex: Lexicon, r: Request, catalog: seq<CatalogModel>, best: CatalogModel, stage: nat, literal: string)
    requires best in catalog && best.family.Some? && TaskMinGrade(r.task) <= FamilyGrade(best.family.value)
    requires IsEffortSafe(lex, r, best, stage, literal)
    ensures var ladder := Ladder(catalog, r.task, FamilyGrade(best.family.value));
            IsSafe(lex, r, catalog, best, stage, OrdinaryPreview(lex, r, ladder, best, stage, literal))
  {
    LowerRouteIsSafe(lex, r, catalog, best, stage);
    OwnEffort(lex, r, best, stage);
    hide Ladder, MinimumStage, EffortStage, SelectEffort, LowerChoice, TaskMinGrade, FamilyGrade, IsEligible, IsEffortSafe;
  }

  lemma OwnEffort(lex: Lexicon, r: Request, best: CatalogModel, stage: nat)
    ensures var effort := SelectEffort(lex, best, MinimumStage(lex, r.task, r.files, best), stage);
            effort.Some? ==> IsEffortSafe(lex, r, best, stage, effort.value)
  {
    hide EffortStage, MinimumStage, SelectEffort;
  }

  /**
   Every route takes a usable model of the catalogue within the grades of the task class and the
   recommendation, with an effort it advertises between its own minimum and the recommended
   stage.  A lowered model never gets Ultra, and a limited one is the last resort.
   */
  lemma RouteIsSafe(lex: Lexicon, r: Request, catalog: seq<CatalogModel>)
    requires IsSane(lex) && RoutePreview(lex, r, catalog).Route?
    ensures IsGiven(r.model) && IsGiven(r.effort) && WithId(catalog, r.model.value).Some?
    ensures var best, stage := WithId(catalog, r.model.value).value, EffortStage(lex, r.effort.value);
            && best.family.Some? && stage.Some? && IsSafe(lex, r, catalog, best, stage.value, RoutePreview(lex, r, catalog))
            && r.account != Blocked && !(r.account == Critical && r.task in {T3, T4, T5}) && !TooMany(r.task, r.files)
  {
    FoundById(catalog, r.model.value);
    var best := WithId(catalog, r.model.value).value;
    CheckPassed(lex, r, best, r.effort.value);
    var c := CheckRequest(lex, r, best, r.effort.value);
    assert IsEffortSafe(lex, r, best, c.stage, c.literal);
    if IsUltra(lex, best, r.effort.value) {
      UltraStage(lex, best, r.effort.value);
      hide EffortStage, MinimumStage, Ladder, WithId, CheckRequest, IsUltra, IsSafe, OrdinaryPreview, UltraPreview;
      UltraIsSafe(lex, r, catalog, best, c.literal);
    } else {
      hide EffortStage, MinimumStage, Ladder, WithId, CheckRequest, IsUltra, IsSafe, OrdinaryPreview, UltraPreview;
      OrdinaryIsSafe(lex, r, catalog, best, c.stage, c.literal);
    }
  }

  // ------------------------------------------------------- reordering across families

  /** The models of one family among the first `k`, in the order of the server. */
  function OfFamily(catalog: seq<CatalogModel>, k: nat, f: Family): (models: seq<CatalogModel>)
    requires k <= |catalog|
  {
    if k == 0 then []
    else
      OfFamily(catalog, k - 1, f) + (if catalog[k - 1].family == Some(f) then [catalog[k - 1]] else [])
  }

  /** Both lists have the same models of every family in the same order. */
  ghost predicate SameFamilies(a: seq<CatalogModel>, b: seq<CatalogModel>) {
    forall f :: OfFamily(a, |a|, f) == OfFamily(b, |b|, f)
  }

  ghost predicate HasUniqueIds(catalog: seq<CatalogModel>) {
    forall i, j :: 0 <= i < j < |catalog| ==> catalog[i].id != catalog[j].id
  }

  lemma {:induction false} OfFamilyExactly(catalog: seq<CatalogModel>, k: nat, f: Family)
    requires k <= |catalog|
    ensures forall m :: m in OfFamily(catalog, k, f) <==> m in catalog[..k] && m.family == Some(f)
  {
    if k > 0 {
      OfFamilyExactly(catalog, k - 1, f);
      assert catalog[..k] == catalog[..k - 1] + [catalog[k - 1]];
    }
  }

  /** Adding one family looks at the models of that family only. */
  lemma {:induction false} AddFamilyFilters(ladder: seq<CatalogModel>, catalog: seq<CatalogModel>, k: nat, f: Family,
                                            task: TaskClass, maximum: nat)
    requires k <= |catalog|
    ensures var models := OfFamily(catalog, k, f);
            AddFamily(ladder, catalog, k, f, task, maximum) == AddFamily(ladder, models, |models|, f, task, maximum)
  {
    if k > 0 {
      AddFamilyFilters(ladder, catalog, k - 1, f, task, maximum);
      var before, models := OfFamily(catalog, k - 1, f), OfFamily(catalog, k, f);
      if catalog[k - 1].family == Some(f) {
        AddFamilyPrefix(ladder, before, [catalog[k - 1]], |before|, f, task, maximum);
      } else {
        assert models == before;
      }
    }
  }

  lemma {:induction false} AddFamilyPrefix(ladder: seq<CatalogModel>, a: seq<CatalogModel>, b: seq<CatalogModel>, k: nat,
                                           f: Family, task: TaskClass, maximum: nat)
    requires k <= |a|
    ensures AddFamily(ladder, a + b, k, f, task, maximum) == AddFamily(ladder, a, k, f, task, maximum)
  {
    if k > 0 {
      AddFamilyPrefix(ladder, a, b, k - 1, f, task, maximum);
    }
  }

  lemma {:induction false} SameLadder(a: seq<CatalogModel>, b: seq<CatalogModel>, families: seq<Family>, n: nat,
                                      task: TaskClass, maximum: nat)
    requires SameFamilies(a, b) && n <= |families|
    ensures AddFamilies(families, n, a, task, maximum) == AddFamilies(families, n, b, task, maximum)
  {
    if n > 0 {
      SameLadder(a, b, families, n - 1, task, maximum);
      var before := AddFamilies(families, n - 1, a, task, maximum);
      AddFamilyFilters(before, a, |a|, families[n - 1], task, maximum);
      AddFamilyFilters(before, b, |b|, families[n - 1], task, maximum);
      hide AddFamily, OfFamily;
    }
  }

  lemma {:induction false} FoundByUniqueId(catalog: seq<CatalogModel>, m: CatalogModel)
    requires HasUniqueIds(catalog) && m in catalog
    ensures WithId(catalog, m.id) == Some(m)
  {
    if catalog[0] != m {
      assert catalog == [catalog[0]] + catalog[1..];
      FoundByUniqueId(catalog[1..], m);
      var i :| 0 < i < |catalog| && catalog[i] == m;
      assert catalog[0].id != catalog[i].id;
    }
  }

  lemma SameModel(a: seq<CatalogModel>, b: seq<CatalogModel>, id: string)
    requires SameFamilies(a, b) && HasUniqueIds(b)
    requires WithId(a, id).Some? && WithId(a, id).value.family.Some?
    ensures WithId(b, id) == WithId(a, id)
  {
    var m := WithId(a, id).value;
    var f := m.family.value;
    FoundById(a, id);
    OfFamilyExactly(a, |a|, f);
    OfFamilyExactly(b, |b|, f);
    assert a[..|a|] == a && b[..|b|] == b;
    assert OfFamily(a, |a|, f) == OfFamily(b, |b|, f);
    hide OfFamily, SameFamilies;
    FoundByUniqueId(b, m);
  }

  /** With unique ids, only the order inside each family matters for the preview. */
  lemma OrderAcrossFamilies(lex: Lexicon, r: Request, a: seq<CatalogModel>, b: seq<CatalogModel>)
    requires SameFamilies(a, b) && HasUniqueIds(a) && HasUniqueIds(b)
    ensures RoutePreview(lex, r, a) == RoutePreview(lex, r, b)
  {
    if IsGiven(r.model) {
      var id := r.model.value;
      var x, y := WithId(a, id), WithId(b, id);
      if x.Some? && x.value.family.Some? {
        SameModel(a, b, id);
        LaddersAgree(a, b, r.task, FamilyGrade(x.value.family.value));
      } else if y.Some? && y.value.family.Some? {
        SameModel(b, a, id);
      }
    }
    hide SameFamilies, HasUniqueIds, WithId, Ladder, CheckRequest, IsUltra, UltraPreview, OrdinaryPreview, FamilyGrade;
  }

  lemma LaddersAgree(a: seq<CatalogModel>, b: seq<CatalogModel>, task: TaskClass, maximum: nat)
    requires SameFamilies(a, b)
    ensures Ladder(a, task, maximum) == Ladder(b, task, maximum)
  {
    var families := LadderFamilies(task, |ALL_FAMILIES|);
    SameLadder(a, b, families, |families|, task, maximum);
  }

  // ------------------------------------------------------------- when there is a route

  /** A usable lower model of the catalogue with a fitting effort, and leave to take it. */
  ghost predicate CanLower(lex: Lexicon, r: Request, catalog: seq<CatalogModel>, best: CatalogModel, stage: nat)
    requires best.family.Some?
  {
    r.lowRisk && (r.readOnly || r.hasTests)
    && exists m :: m in catalog && IsUsable(m) && m.family.Some? && TaskMinGrade(r.task) <= FamilyGrade(m.family.value)
                   && IsWithinGrades(r, m, best)
                   && HasEffort(lex, r, m, stage)
  }

  /** The model advertises an effort below Ultra between its own minimum and a ceiling. */
  ghost predicate HasEffort(lex: Lexicon, r: Request, m: CatalogModel, stage: nat) {
    exists e :: e in m.efforts && IsBetween(lex, MinimumStage(lex, r.task, r.files, m), e, stage)
  }

  /** No effort of a known stage is the empty text. */
  ghost predicate BlankHasNoStage(lex: Lexicon) {
    EffortStage(lex, "") == None
  }

  lemma BlankStage(lex: Lexicon)
    requires IsSane(lex)
    ensures BlankHasNoStage(lex)
  {
    assert Dashed("") == "";
  }

  lemma EffortGiven(lex: Lexicon, r: Request, m: CatalogModel, stage: nat)
    requires BlankHasNoStage(lex)
    ensures IsGiven(SelectEffort(lex, m, MinimumStage(lex, r.task, r.files, m), stage)) <==> HasEffort(lex, r, m, stage)
  {
    hide EffortStage, MinimumStage, SelectEffort;
  }

  lemma LowerIffPossible(lex: Lexicon, r: Request, catalog: seq<CatalogModel>, best: CatalogModel, stage: nat)
    requires BlankHasNoStage(lex) && best.family.Some?
    ensures LowerChoice(lex, r, Ladder(catalog, r.task, FamilyGrade(best.family.value)), best, stage).Some? <==>
              CanLower(lex, r, catalog, best, stage)
  {
    var ladder := Ladder(catalog, r.task, FamilyGrade(best.family.value));
    LadderExactly(catalog, r.task, FamilyGrade(best.family.value));
    hide Ladder, TaskMinGrade, FamilyGrade;
    forall m ensures IsGiven(SelectEffort(lex, m, MinimumStage(lex, r.task, r.files, m), stage)) <==> HasEffort(lex, r, m, stage) {
      EffortGiven(lex, r, m, stage);
    }
    hide HasEffort, SelectEffort, MinimumStage, BlankHasNoStage, IsGiven;
  }

  /** An ordinary request that passed the checks is routed exactly when some choice is left. */
  lemma OrdinaryIffPossible(lex: Lexicon, r: Request, catalog: seq<CatalogModel>, best: CatalogModel, stage: nat,
                            literal: string)
    requires BlankHasNoStage(lex) && best.family.Some? && EffortStage(lex, literal) == Some(stage)
    ensures OrdinaryPreview(lex, r, Ladder(catalog, r.task, FamilyGrade(best.family.value)), best, stage, literal).Route? <==>
              || CanLower(lex, r, catalog, best, stage)
              || (IsUsable(best) && (r.lowRisk && (r.readOnly || r.hasTests) ==> HasEffort(lex, r, best, stage)))
  {
    LowerIffPossible(lex, r, catalog, best, stage);
    EffortGiven(lex, r, best, stage);
    assert literal != "";
    hide Ladder, LowerChoice, CanLower, HasEffort, SelectEffort, MinimumStage, EffortStage, FamilyGrade;
  }

  /** When a request for Ultra is routed: as asked for, or to the last advertised effort below it. */
  ghost predicate CanUltra(lex: Lexicon, r: Request, best: CatalogModel) {
    IsUsable(best) &&
    (UltraConditions(r) ||
     (LastNonUltra(lex, best).Some? &&
      MinimumStage(lex, r.task, r.files, best) <= EffortStage(lex, LastNonUltra(lex, best).value).value))
  }

  lemma UltraIffPossible(lex: Lexicon, r: Request, best: CatalogModel, literal: string)
    requires BlankHasNoStage(lex)
    ensures UltraPreview(lex, r, best, literal).Route? <==> CanUltra(lex, r, best)
  {
    hide EffortStage, MinimumStage, LastNonUltra, UltraConditions;
  }

  /** Some choice is left for a request that passed the checks. */
  ghost predicate IsRoutable(lex: Lexicon, r: Request, catalog: seq<CatalogModel>, best: CatalogModel, effort: string,
                             stage: nat)
    requires best.family.Some?
  {
    if IsUltra(lex, best, effort) then CanUltra(lex, r, best)
    else
      || CanLower(lex, r, catalog, best, stage)
      || (IsUsable(best) && (r.lowRisk && (r.readOnly || r.hasTests) ==> HasEffort(lex, r, best, stage)))
  }

  /** A request is held exactly when a check fails or no choice is left. */
  lemma RouteIffPossible(lex: Lexicon, r: Request, catalog: seq<CatalogModel>, best: CatalogModel)
    requires IsSane(lex) && IsGiven(r.model) && IsGiven(r.effort)
    requires WithId(catalog, r.model.value) == Some(best) && best.family.Some?
    ensures RoutePreview(lex, r, catalog).Route? <==>
              var c := CheckRequest(lex, r, best, r.effort.value);
              c.Passed? && IsRoutable(lex, r, catalog, best, r.effort.value, c.stage)
  {
    hide MinimumStage, Ladder, WithId, CanLower, CanUltra, HasEffort, BlankHasNoStage, EffortStage, IsSane;
    BlankStage(lex);
    hide CheckRequest, IsUltra, UltraPreview, OrdinaryPreview, FamilyGrade, IsUsable;
    var c := CheckRequest(lex, r, best, r.effort.value);
    if c.Passed? {
      CheckPassed(lex, r, best, r.effort.value);
      UltraIffPossible(lex, r, best, c.literal);
      OrdinaryIffPossible(lex, r, catalog, best, c.stage, c.literal);
    }
  }

  // --------------------------------------------------------------- the policy in its own words

  /** The stages of the words, from the lowest to Ultra; nothing else has one. */
  lemma WordStages(word: string)
    ensures StageOf("low") == Some(0) && StageOf("medium") == Some(1) && StageOf("high") == Some(2)
    ensures StageOf("xhigh") == Some(3) && StageOf("max") == Some(4) && StageOf("ultra") == Some(5)
    ensures StageOf(word) == Some(3) <==>
              word in ["xhigh", "x-high", "veryhigh", "very-high",
                       "\U{B9E4}\U{C6B0}\U{B192}\U{C74C}", "\U{B9E4}\U{C6B0}-\U{B192}\U{C74C}"]
    ensures StageOf(word).Some? && StageOf(word) != Some(3) ==> word in ["low", "medium", "high", "max", "ultra"]
  {
  }

  /** Blanks and underlines between the parts of a word count as dashes. */
  lemma DashedAt(s: string)
    ensures |Dashed(s)| == |s|
    ensures forall i :: 0 <= i < |s| ==> Dashed(s)[i] == if s[i] in {'_', ' '} then '-' else s[i]
    ensures StageOf(Dashed("very high")) == StageOf(Dashed("x_high")) == Some(3)
  {
    assert Dashed("very high") == "very-high" && Dashed("x_high") == "x-high";
  }

  /** A family's grade is its place in this order. */
  lemma GradesRise(f: Family)
    ensures FamilyGrade(f) < 7 && [Spark, Mini, Luna, F54, Terra, F55, Sol][FamilyGrade(f)] == f
  {
  }

  /** The families a task class looks for first. */
  lemma Preferred(task: TaskClass)
    ensures match task
            case T0 => LadderFamilies(task, 7)[..1] == [Spark]
            case T1 => LadderFamilies(task, 7)[..2] == [Spark, Mini]
            case T2 => LadderFamilies(task, 7)[..2] == [Mini, Luna]
            case T3 => LadderFamilies(task, 7)[..2] == [F54, Terra]
            case T4 => LadderFamilies(task, 7)[..2] == [Terra, F54]
            case T5 => LadderFamilies(task, 7)[..2] == [Sol, F55]
  {
    PreferredFirst(task, 7);
    hide LadderFamilies;
  }

  /** The other families follow by falling grade. */
  lemma {:induction false} OthersFall(task: TaskClass, n: nat)
    requires n <= |ALL_FAMILIES|
    ensures var families, k := LadderFamilies(task, n), |TaskFamilies(task)|;
            && k <= |families|
            && (forall i :: k <= i < |families| ==> FamilyGrade(families[i]) >= 7 - n)
            && forall i, j :: k <= i < j < |families| ==> FamilyGrade(families[i]) > FamilyGrade(families[j])
  {
    if n > 0 {
      OthersFall(task, n - 1);
      assert FamilyGrade(ALL_FAMILIES[n - 1]) == 7 - n;
    }
  }

  /** The families strong enough for a task class. */
  predicate IsStrongEnough(task: TaskClass, f: Family) {
    match task
    case T0 => true
    case T1 => true
    case T2 => f != Spark
    case T3 => f in {F54, Terra, F55, Sol}
    case T4 => f in {F54, Terra, F55, Sol}
    case T5 => f in {F55, Sol}
  }

  /**
   The least stage for a task on a model: Medium for T0, High for T1 to T3, Very High for T3 from four files
   on and for T4, Max for T5; but under T5 a model of family 5.5 uses the highest stage it lists below Ultra.
   */
  ghost predicate MeetsMinimum(lex: Lexicon, task: TaskClass, files: int, m: CatalogModel, stage: nat) {
    if task == T5 && m.family == Some(F55) && exists e :: e in m.efforts && IsBelowUltra(lex, e) then
      forall e :: e in m.efforts && IsBelowUltra(lex, e) ==> EffortStage(lex, e).value <= stage
    else
      match task
      case T0 => stage >= StageOf("medium").value
      case T1 => stage >= StageOf("high").value
      case T2 => stage >= StageOf("high").value
      case T3 => stage >= (if files >= 4 then StageOf("xhigh").value else StageOf("high").value)
      case T4 => stage >= StageOf("xhigh").value
      case T5 => stage >= StageOf("max").value
  }

  lemma MinimumMeans(lex: Lexicon, task: TaskClass, files: int, m: CatalogModel, stage: nat)
    ensures MinimumStage(lex, task, files, m) <= stage <==> MeetsMinimum(lex, task, files, m, stage)
  {
    WordStages("");
    hide EffortStage, StageOf;
    if MaxStage(lex, m.efforts).Some? {
      var top :| top in m.efforts && EffortStage(lex, top) == MaxStage(lex, m.efforts) && IsBelowUltra(lex, top);
    }
  }

  lemma StrongMeans(task: TaskClass, f: Family)
    ensures TaskMinGrade(task) <= FamilyGrade(f) <==> IsStrongEnough(task, f)
  {
  }

  /** Every routed effort meets the minimum of its task on its model, and its model is strong enough. */
  lemma RouteMeetsMinimum(lex: Lexicon, r: Request, catalog: seq<CatalogModel>)
    requires IsSane(lex) && RoutePreview(lex, r, catalog).Route?
    ensures var p := RoutePreview(lex, r, catalog);
            && EffortStage(lex, p.effort).Some? && MeetsMinimum(lex, r.task, r.files, p.model, EffortStage(lex, p.effort).value)
            && p.model.family.Some? && IsStrongEnough(r.task, p.model.family.value)
  {
    hide RoutePreview, EffortStage, MinimumStage, IsSane, MeetsMinimum, WithId, IsChoiceSafe;
    hide TaskMinGrade, FamilyGrade, IsStrongEnough, IsUsable;
    RouteIsSafe(lex, r, catalog);
    var p := RoutePreview(lex, r, catalog);
    StrongMeans(r.task, p.model.family.value);
    MinimumMeans(lex, r.task, r.files, p.model, EffortStage(lex, p.effort).value);
  }

  /** The first effort, in the order of the server, that passes a test. */
  ghost predicate IsFirstEffort(efforts: seq<string>, test: string -> bool, effort: string) {
    exists i: nat :: IsFirst(efforts, test, i) && efforts[i] == effort
  }

  lemma {:induction false} FirstEffortIsFirst(efforts: seq<string>, test: string -> bool)
    requires FirstEffort(efforts, test).Some?
    ensures IsFirstEffort(efforts, test, FirstEffort(efforts, test).value)
  {
    if test(efforts[0]) {
      assert IsFirst(efforts, test, 0);
    } else {
      FirstEffortIsFirst(efforts[1..], test);
      FirstCons(efforts, test);
      var i: nat :| IsFirst(efforts[1..], test, i) && efforts[1..][i] == FirstEffort(efforts, test).value;
      assert IsFirst(efforts, test, i + 1) && efforts[i + 1] == FirstEffort(efforts, test).value;
    }
  }

  /** The effort selected is the first listed one within the bounds. */
  lemma SelectIsFirst(lex: Lexicon, m: CatalogModel, minimum: nat, ceiling: nat)
    requires SelectEffort(lex, m, minimum, ceiling).Some?
    ensures var fits := (e: string) => EffortStage(lex, e).Some? && EffortStage(lex, e).value < 5
                          && minimum <= EffortStage(lex, e).value <= ceiling;
            exists i: nat :: IsFirst(m.efforts, fits, i) && m.efforts[i] == SelectEffort(lex, m, minimum, ceiling).value
  {
    var within := (e: string) => IsBetween(lex, minimum, e, ceiling);
    FirstEffortIsFirst(m.efforts, within);
    hide EffortStage;
    var fits := (e: string) => EffortStage(lex, e).Some? && EffortStage(lex, e).value < 5
                  && minimum <= EffortStage(lex, e).value <= ceiling;
    var i: nat :| IsFirst(m.efforts, within, i) && m.efforts[i] == SelectEffort(lex, m, minimum, ceiling).value;
    assert forall e :: within(e) <==> fits(e);
    assert IsFirst(m.efforts, fits, i);
  }

  /** What the checks ask of a recommended effort, and the literal that then stands for it. */
  ghost predicate IsServed(lex: Lexicon, r: Request, best: CatalogModel, effort: string) {
    && EffortStage(lex, effort).Some?
    && (exists e :: e in best.efforts && EffortStage(lex, e) == EffortStage(lex, effort))
    && MeetsMinimum(lex, r.task, r.files, best, EffortStage(lex, effort).value)
  }

  /** What the checks ask of the account, the size of the task and the recommended model. */
  predicate IsAdmitted(r: Request, best: CatalogModel)
    requires best.family.Some?
  {
    && r.account != Blocked && !(r.account == Critical && r.task in {T3, T4, T5})
    && (r.task == T1 ==> r.files <= 2) && (r.task == T2 ==> r.files <= 5) && (r.task == T3 ==> r.files <= 10)
    && IsStrongEnough(r.task, best.family.value)
  }

  /**
   The checks pass exactly for an admitted request whose effort the recommended model serves; the literal is
   then the first listed effort of the same stage.
   */
  lemma ChecksPassIff(lex: Lexicon, r: Request, best: CatalogModel, effort: string)
    requires best.family.Some?
    ensures var c := CheckRequest(lex, r, best, effort);
            && (c.Passed? <==> IsAdmitted(r, best) && IsServed(lex, r, best, effort))
            && (c.Passed? ==>
                  && EffortStage(lex, effort) == Some(c.stage)
                  && IsFirstEffort(best.efforts, e => EffortStage(lex, e) == Some(c.stage), c.literal))
  {
    hide EffortStage, MeetsMinimum, MinimumStage, IsFirstEffort;
    if EffortStage(lex, effort).Some? {
      var stage := EffortStage(lex, effort).value;
      MinimumMeans(lex, r.task, r.files, best, stage);
      if LiteralAtStage(lex, best, stage).Some? {
        FirstEffortIsFirst(best.efforts, e => EffortStage(lex, e) == Some(stage));
      }
    }
  }

  /** The reason a check fails for is true, and the checks before it pass. */
  lemma FailureIsExplained(lex: Lexicon, r: Request, best: CatalogModel, effort: string)
    requires best.family.Some? && CheckRequest(lex, r, best, effort).Failed?
    ensures match CheckRequest(lex, r, best, effort).reason
            case AccountBlocked => r.account == Blocked
            case AccountCritical => r.account == Critical && r.task in {T3, T4, T5}
            case TooManyFiles =>
              (r.task == T1 && r.files > 2) || (r.task == T2 && r.files > 5) || (r.task == T3 && r.files > 10)
            case BelowMinimumGrade => !IsStrongEnough(r.task, best.family.value)
            case UnknownEffort => IsAdmitted(r, best) && EffortStage(lex, effort) == None
            case NoLiteralAtStage =>
              IsAdmitted(r, best) && EffortStage(lex, effort).Some?
              && forall e :: e in best.efforts ==> EffortStage(lex, e) != EffortStage(lex, effort)
            case BelowMinimumEffort =>
              IsAdmitted(r, best) && EffortStage(lex, effort).Some?
              && !MeetsMinimum(lex, r.task, r.files, best, EffortStage(lex, effort).value)
            case _ => false
  {
    hide EffortStage, MeetsMinimum, MinimumStage;
    if EffortStage(lex, effort).Some? {
      MinimumMeans(lex, r.task, r.files, best, EffortStage(lex, effort).value);
    }
  }

  // ----------------------------------------------------------------- routes with Ultra

  lemma UltraOnly(lex: Lexicon, r: Request, best: CatalogModel, literal: string)
    requires EffortStage(lex, literal) == Some(ULTRA)
    ensures var p := UltraPreview(lex, r, best, literal);
            p.Route? && EffortStage(lex, p.effort) == Some(ULTRA) <==> UltraConditions(r) && IsUsable(best)
    ensures UltraConditions(r) && IsUsable(best) ==> UltraPreview(lex, r, best, literal) == Route(best, literal, AsUltra)
  {
    hide EffortStage, MinimumStage, LastNonUltra, UltraConditions;
    if LastNonUltra(lex, best).Some? {
      assert IsBelowUltra(lex, LastNonUltra(lex, best).value);
    }
  }

  lemma OrdinaryUltra(lex: Lexicon, r: Request, ladder: seq<CatalogModel>, best: CatalogModel, stage: nat, literal: string)
    requires IsSane(lex) && best.family.Some? && EffortStage(lex, literal) == Some(stage)
    ensures var p := OrdinaryPreview(lex, r, ladder, best, stage, literal);
            && (p.Route? && EffortStage(lex, p.effort) == Some(ULTRA) <==>
                  stage == ULTRA && IsUsable(best) && !DowngradePolicy(r).0)
            && (IsUsable(best) && !DowngradePolicy(r).0 ==> p == Route(best, literal, AsRecommended))
  {
    BlankStage(lex);
    assert literal != "";
    hide MinimumStage, EffortStage, SelectEffort, FamilyGrade, IsSane;
    forall m, low | SelectEffort(lex, m, low, stage).Some?
      ensures EffortStage(lex, SelectEffort(lex, m, low, stage).value) != Some(ULTRA)
    {
    }
  }

  /**
   Exactly when a route has an effort of stage Ultra, for a recommended model of a known family: the
   checks pass with that stage, the model is usable, and either the request counts as one for
   Ultra and meets all its conditions, or it does not count as one and nothing may be lowered.
   */
  lemma UltraRouteIff(lex: Lexicon, r: Request, catalog: seq<CatalogModel>, best: CatalogModel)
    requires IsSane(lex) && IsGiven(r.model) && IsGiven(r.effort)
    requires WithId(catalog, r.model.value) == Some(best) && best.family.Some?
    ensures var p := RoutePreview(lex, r, catalog);
            var c := CheckRequest(lex, r, best, r.effort.value);
            p.Route? && EffortStage(lex, p.effort) == Some(ULTRA) <==>
              && c.Passed? && c.stage == ULTRA && IsUsable(best)
              && if IsUltra(lex, best, r.effort.value)
                 then r.readOnly && r.parallelAudit && r.independentAxes > 2 && r.ultraApproved
                      && r.account != Conserve && r.account != Critical
                 else !(r.lowRisk && (r.readOnly || r.hasTests))
  {
    hide MinimumStage, Ladder, WithId, EffortStage, CheckRequest, IsUltra, UltraPreview, OrdinaryPreview, FamilyGrade;
    hide IsUsable, IsSane;
    var c := CheckRequest(lex, r, best, r.effort.value);
    if c.Passed? {
      CheckPassed(lex, r, best, r.effort.value);
      if IsUltra(lex, best, r.effort.value) {
        UltraStage(lex, best, r.effort.value);
        UltraOnly(lex, r, best, c.literal);
      } else {
        OrdinaryUltra(lex, r, Ladder(catalog, r.task, FamilyGrade(best.family.value)), best, c.stage, c.literal);
      }
    }
  }

  /** Texts whose only case to fold is a blank to strip. */
  function Plain(): (lex: Lexicon) {
    Lexicon(s => if s == " ultra" then "ultra" else s, s => s)
  }

  function OnlyUltra(family: Family): (m: CatalogModel) {
    CatalogModel("m", "", Some(family), ["ultra"], Available)
  }

  function Asking(effort: string): (r: Request) {
    Request(T4, 1, false, false, false, Normal, Some("m"), Some(effort), false, 0, false)
  }

  lemma PlainStages(effort: string)
    requires effort in {" ultra", "ultra"}
    ensures IsSane(Plain()) && EffortStage(Plain(), effort) == Some(ULTRA)
  {
    assert Dashed("ultra") == "ultra";
    assert Plain().strip("") == "";
  }

  lemma OnlyLiteral(lex: Lexicon, family: Family)
    requires EffortStage(lex, "ultra") == Some(ULTRA)
    ensures LiteralAtStage(lex, OnlyUltra(family), ULTRA) == Some("ultra")
  {
    hide EffortStage;
    assert OnlyUltra(family).efforts == ["ultra"];
  }

  lemma AskingPasses(lex: Lexicon, family: Family, effort: string)
    requires family in {Sol, F55}
    requires EffortStage(lex, effort) == EffortStage(lex, "ultra") == Some(ULTRA)
    ensures CheckRequest(lex, Asking(effort), OnlyUltra(family), effort) == Passed(ULTRA, "ultra")
  {
    hide EffortStage, MinimumStage, LiteralAtStage;
    OnlyLiteral(lex, family);
    MinimumOfT4(lex, OnlyUltra(family));
  }

  lemma MinimumOfT4(lex: Lexicon, m: CatalogModel)
    ensures MinimumStage(lex, T4, 1, m) == 3
  {
    hide MaxStage;
  }

  lemma OnlyModel(family: Family)
    ensures WithId([OnlyUltra(family)], "m") == Some(OnlyUltra(family))
  {
  }

  /** No request but one for Ultra itself, to a family it is meant for, has to meet the conditions. */
  lemma UnboundUltra(lex: Lexicon, family: Family, effort: string)
    requires IsSane(lex) && family in {Sol, F55} && IsGiven(Some(effort)) && !IsUltra(lex, OnlyUltra(family), effort)
    requires EffortStage(lex, effort) == EffortStage(lex, "ultra") == Some(ULTRA)
    ensures RoutePreview(lex, Asking(effort), [OnlyUltra(family)]) == Route(OnlyUltra(family), "ultra", AsRecommended)
  {
    hide CheckRequest, EffortStage, OrdinaryPreview, UltraPreview, Ladder, WithId, IsUltra, IsSane, FamilyGrade;
    var r, ladder := Asking(effort), Ladder([OnlyUltra(family)], T4, FamilyGrade(family));
    OnlyModel(family);
    AskingPasses(lex, family, effort);
    assert OrdinaryPreview(lex, r, ladder, OnlyUltra(family), ULTRA, "ultra") == Route(OnlyUltra(family), "ultra", AsRecommended) by {
      OrdinaryUltra(lex, r, ladder, OnlyUltra(family), ULTRA, "ultra");
    }
  }

  /** The conditions are passed by: by a blank before the word, or by a family they are not meant for. */
  lemma UltraWithoutItsConditions(family: Family, effort: string)
    requires (family == Sol && effort == " ultra") || (family == F55 && effort == "ultra")
    ensures IsSane(Plain()) && !UltraConditions(Asking(effort)) && EffortStage(Plain(), "ultra") == Some(ULTRA)
    ensures RoutePreview(Plain(), Asking(effort), [OnlyUltra(family)]) == Route(OnlyUltra(family), "ultra", AsRecommended)
  {
    PlainStages(effort);
    PlainStages("ultra");
    hide EffortStage, RoutePreview;
    assert !IsUltra(Plain(), OnlyUltra(family), effort);
    UnboundUltra(Plain(), family, effort);
  }

  // ----------------------------------------------------------------- the fallback of Ultra

  lemma {:induction false} LastIsLast(efforts: seq<string>, test: string -> bool)
    requires LastEffort(efforts, test).Some?
    ensures exists i :: 0 <= i < |efforts| && efforts[i] == LastEffort(efforts, test).value
              && forall j :: i < j < |efforts| ==> !test(efforts[j])
    decreases |efforts|
  {
    var n := |efforts| - 1;
    if test(efforts[n]) {
      assert efforts[n] == LastEffort(efforts, test).value;
    } else {
      LastIsLast(efforts[..n], test);
      var i :| 0 <= i < n && efforts[..n][i] == LastEffort(efforts, test).value
               && forall j :: i < j < n ==> !test(efforts[..n][j]);
      forall j | i < j < |efforts| ensures !test(efforts[j]) {
        if j < n {
          assert efforts[..n][j] == efforts[j];
        }
      }
      assert efforts[i] == LastEffort(efforts, test).value;
    }
  }

  /** The effort at `i` is below Ultra, and none listed after it is. */
  ghost predicate IsLastBelow(lex: Lexicon, efforts: seq<string>, i: nat) {
    i < |efforts| && IsBelowUltra(lex, efforts[i]) && forall j :: i < j < |efforts| ==> !IsBelowUltra(lex, efforts[j])
  }

  /** An effort below Ultra listed after `i` has at least the stage of the one at `i`. */
  ghost predicate IsMatchedLater(lex: Lexicon, efforts: seq<string>, i: nat)
    requires i < |efforts| && IsBelowUltra(lex, efforts[i])
  {
    exists j :: i < j < |efforts| && IsBelowUltra(lex, efforts[j])
      && EffortStage(lex, efforts[i]).value <= EffortStage(lex, efforts[j]).value
  }

  /** No effort below Ultra is followed by lower ones only. */
  ghost predicate EndsHighest(lex: Lexicon, efforts: seq<string>) {
    forall i: nat :: i < |efforts| && IsBelowUltra(lex, efforts[i]) ==>
      IsLastBelow(lex, efforts, i) || IsMatchedLater(lex, efforts, i)
  }

  /** The stage of the fallback, if there is one. */
  function FallbackStage(lex: Lexicon, m: CatalogModel): (stage: Option<nat>) {
    match LastNonUltra(lex, m)
    case None => None
    case Some(effort) => EffortStage(lex, effort)
  }

  lemma FallbackPlace(lex: Lexicon, m: CatalogModel) returns (k: nat)
    requires LastNonUltra(lex, m).Some?
    ensures IsLastBelow(lex, m.efforts, k) && m.efforts[k] == LastNonUltra(lex, m).value
  {
    LastIsLast(m.efforts, e => IsBelowUltra(lex, e));
    hide LastEffort, EffortStage;
    k :| 0 <= k < |m.efforts| && m.efforts[k] == LastNonUltra(lex, m).value
         && forall j :: k < j < |m.efforts| ==> !IsBelowUltra(lex, m.efforts[j]);
  }

  /** From any effort below Ultra, later ones of at least its stage lead to the last one. */
  lemma {:induction false} Climb(lex: Lexicon, efforts: seq<string>, i: nat, k: nat)
    requires EndsHighest(lex, efforts) && IsLastBelow(lex, efforts, k)
    requires i < |efforts| && IsBelowUltra(lex, efforts[i])
    ensures EffortStage(lex, efforts[i]).value <= EffortStage(lex, efforts[k]).value
    decreases |efforts| - i
  {
    hide EffortStage;
    assert i <= k;
    if i < k {
      assert !IsLastBelow(lex, efforts, i);
      var j :| i < j < |efforts| && IsBelowUltra(lex, efforts[j])
               && EffortStage(lex, efforts[i]).value <= EffortStage(lex, efforts[j]).value;
      Climb(lex, efforts, j, k);
    }
  }

  /**
   The fallback is announced as the highest advertised effort below Ultra, and is the last one listed:
   it has the highest stage exactly when every listed effort below Ultra is the last such one, or is
   followed by one of at least its stage.
   */
  lemma FallbackIsHighestIff(lex: Lexicon, m: CatalogModel)
    ensures FallbackStage(lex, m) == MaxStage(lex, m.efforts) <==> EndsHighest(lex, m.efforts)
  {
    hide EffortStage, LastEffort;
    if LastNonUltra(lex, m).Some? {
      var k := FallbackPlace(lex, m);
      hide LastNonUltra;
      HighestMeans(lex, m.efforts, m.efforts[k]);
      if EndsHighest(lex, m.efforts) {
        forall e | e in m.efforts && IsBelowUltra(lex, e)
          ensures EffortStage(lex, e).value <= EffortStage(lex, m.efforts[k]).value
        {
          var i: nat :| i < |m.efforts| && m.efforts[i] == e;
          Climb(lex, m.efforts, i, k);
        }
      }
    }
  }

  /** The efforts below Ultra are listed by rising stage. */
  ghost predicate AreRising(lex: Lexicon, efforts: seq<string>) {
    forall i, j :: 0 <= i < j < |efforts| && IsBelowUltra(lex, efforts[i]) && IsBelowUltra(lex, efforts[j]) ==>
      EffortStage(lex, efforts[i]).value <= EffortStage(lex, efforts[j]).value
  }

  /** It does when the server lists efforts by rising stage. */
  lemma RisingFallbackIsHighest(lex: Lexicon, m: CatalogModel)
    requires AreRising(lex, m.efforts)
    ensures FallbackStage(lex, m) == MaxStage(lex, m.efforts)
  {
    hide EffortStage, MaxStage, LastEffort, IsBelowUltra, FallbackStage;
    forall i: nat | i < |m.efforts| && IsBelowUltra(lex, m.efforts[i]) && !IsLastBelow(lex, m.efforts, i)
      ensures IsBelowUltra(lex, m.efforts[i]) && IsMatchedLater(lex, m.efforts, i)
    {
      var j :| i < j < |m.efforts| && IsBelowUltra(lex, m.efforts[j]);
      RisingAt(lex, m.efforts, i, j);
    }
    FallbackIsHighestIff(lex, m);
  }

  lemma RisingAt(lex: Lexicon, efforts: seq<string>, i: nat, j: nat)
    requires AreRising(lex, efforts) && i < j < |efforts| && IsBelowUltra(lex, efforts[i]) && IsBelowUltra(lex, efforts[j])
    ensures EffortStage(lex, efforts[i]).value <= EffortStage(lex, efforts[j]).value
  {
    hide EffortStage;
  }

  lemma HighestMeans(lex: Lexicon, efforts: seq<string>, highest: string)
    requires highest in efforts && IsBelowUltra(lex, highest)
    ensures EffortStage(lex, highest) == MaxStage(lex, efforts) <==>
              forall e :: e in efforts && IsBelowUltra(lex, e) ==> EffortStage(lex, e).value <= EffortStage(lex, highest).value
  {
    hide EffortStage, MaxStage;
  }

  /** A model that lists "max" before "low" falls back to "low". */
  lemma FallbackCanBeLowest(lex: Lexicon)
    requires forall s :: lex.strip(s) == s && lex.casefold(s) == s
    ensures var m := CatalogModel("m", "", Some(Sol), ["max", "low"], Available);
            LastNonUltra(lex, m) == Some("low") && EffortStage(lex, "low") == Some(0) && MaxStage(lex, m.efforts) == Some(4)
  {
    assert Dashed("max") == "max" && Dashed("low") == "low";
    var m := CatalogModel("m", "", Some(Sol), ["max", "low"], Available);
    assert "max" in m.efforts;
  }

  /** The lowered model is the first one that fits: in the ladder's order, available ones first. */
  lemma LoweredIsFirst(lex: Lexicon, r: Request, ladder: seq<CatalogModel>, best: CatalogModel, stage: nat)
    requires best.family.Some? && LowerChoice(lex, r, ladder, best, stage).Some?
    ensures var m := LowerChoice(lex, r, ladder, best, stage).value;
            var limit := DowngradePolicy(r).1;
            && m.status in {Available, Limited}
            && exists i: nat :: IsFirst(ladder, x => IsEligible(lex, r, x, best, limit, stage, m.status), i) && ladder[i] == m
  {
    var limit := DowngradePolicy(r).1;
    var available := (x: CatalogModel) => IsEligible(lex, r, x, best, limit, stage, Available);
    var limited := (x: CatalogModel) => IsEligible(lex, r, x, best, limit, stage, Limited);
    if FirstModel(ladder, available).Some? {
      FirstModelIsFirst(ladder, available);
    } else {
      FirstModelIsFirst(ladder, limited);
    }
  }

  // ------------------------------------------------------------- the order of the ladder

  function IndexOf<T(==)>(items: seq<T>, item: T): (i: nat)
    ensures i <= |items| && (i < |items| ==> items[i] == item)
  {
    if items == [] || items[0] == item then 0 else 1 + IndexOf(items[1..], item)
  }

  lemma {:induction false} IndexOfFirst<T>(items: seq<T>, i: nat)
    requires i < |items| && items[i] !in items[..i]
    ensures IndexOf(items, items[i]) == i
  {
    if i > 0 {
      assert items[0] in items[..i];
      assert items[1..][..i - 1] == items[..i][1..];
      assert items[1..][i - 1] == items[i];
      IndexOfFirst(items[1..], i - 1);
    }
  }

  /** One model comes before another: by the order of the families, then by that of the server. */
  ghost predicate IsBefore(families: seq<Family>, catalog: seq<CatalogModel>, a: CatalogModel, b: CatalogModel)
    requires a.family.Some? && b.family.Some?
  {
    || IndexOf(families, a.family.value) < IndexOf(families, b.family.value)
    || (a.family == b.family && IndexOf(catalog, a) < IndexOf(catalog, b))
  }

  ghost predicate AreDistinct(families: seq<Family>) {
    forall i :: 0 <= i < |families| ==> families[i] !in families[..i]
  }

  lemma {:induction false} FamiliesDistinct(task: TaskClass, n: nat)
    requires n <= |ALL_FAMILIES|
    ensures AreDistinct(LadderFamilies(task, n))
  {
    if n > 0 {
      FamiliesDistinct(task, n - 1);
      var before, families := LadderFamilies(task, n - 1), LadderFamilies(task, n);
      assert forall i :: 0 <= i < |before| ==> families[..i] == before[..i];
      assert families[..|before|] == before;
    }
  }

  /** The ladder while the first `k` models are looked at for family number `n`. */
  ghost predicate IsLadderAt(families: seq<Family>, n: nat, catalog: seq<CatalogModel>, k: nat, ladder: seq<CatalogModel>) {
    && (forall m :: m in ladder ==> m.family.Some?)
    && (forall i, j :: 0 <= i < j < |ladder| ==> IsBefore(families, catalog, ladder[i], ladder[j]))
    && forall m :: m in ladder ==>
         || IndexOf(families, m.family.value) < n
         || (IndexOf(families, m.family.value) == n && IndexOf(catalog, m) < k)
  }

  lemma LadderSnoc(families: seq<Family>, n: nat, catalog: seq<CatalogModel>, k: nat, ladder: seq<CatalogModel>)
    requires k < |catalog| && n < |families| && AreDistinct(families) && IsLadderAt(families, n, catalog, k, ladder)
    requires catalog[k].family == Some(families[n]) && catalog[k] !in catalog[..k]
    ensures IsLadderAt(families, n, catalog, k + 1, ladder + [catalog[k]])
  {
    IndexOfFirst(families, n);
    IndexOfFirst(catalog, k);
    hide IndexOf, AreDistinct;
    assert forall i :: 0 <= i < |ladder| ==> ladder[i] in ladder;
  }

  lemma LadderSame(families: seq<Family>, n: nat, catalog: seq<CatalogModel>, k: nat, ladder: seq<CatalogModel>)
    requires IsLadderAt(families, n, catalog, k, ladder)
    ensures IsLadderAt(families, n, catalog, k + 1, ladder) && IsLadderAt(families, n + 1, catalog, 0, ladder)
  {
    hide IndexOf;
  }

  lemma {:induction false} AddFamilyOrdered(ladder: seq<CatalogModel>, catalog: seq<CatalogModel>, k: nat,
                                            families: seq<Family>, n: nat, task: TaskClass, maximum: nat)
    requires k <= |catalog| && n < |families| && AreDistinct(families) && IsLadderAt(families, n, catalog, 0, ladder)
    ensures IsLadderAt(families, n, catalog, k, AddFamily(ladder, catalog, k, families[n], task, maximum))
  {
    if k > 0 {
      AddFamilyOrdered(ladder, catalog, k - 1, families, n, task, maximum);
      AddedFromCatalog(ladder, catalog, k - 1, families[n], task, maximum);
      var before, m := AddFamily(ladder, catalog, k - 1, families[n], task, maximum), catalog[k - 1];
      LadderSame(families, n, catalog, k - 1, before);
      hide IsLadderAt, AreDistinct;
      if IsOnLadder(m, families[n], task, maximum) && m !in before {
        LadderSnoc(families, n, catalog, k - 1, before);
      }
    }
  }

  lemma {:induction false} AddFamiliesOrdered(families: seq<Family>, n: nat, catalog: seq<CatalogModel>, task: TaskClass,
                                              maximum: nat)
    requires n <= |families| && AreDistinct(families)
    ensures IsLadderAt(families, n, catalog, 0, AddFamilies(families, n, catalog, task, maximum))
  {
    if n > 0 {
      AddFamiliesOrdered(families, n - 1, catalog, task, maximum);
      var before := AddFamilies(families, n - 1, catalog, task, maximum);
      AddFamilyOrdered(before, catalog, |catalog|, families, n - 1, task, maximum);
      LadderSame(families, n - 1, catalog, |catalog|, AddFamilies(families, n, catalog, task, maximum));
      hide IsLadderAt, AddFamily, AreDistinct;
    }
  }

  /** The ladder lists each model once: the preferred families first, each in the server's order. */
  lemma LadderOrdered(catalog: seq<CatalogModel>, task: TaskClass, maximum: nat)
    ensures var families, ladder := LadderFamilies(task, |ALL_FAMILIES|), Ladder(catalog, task, maximum);
            && TaskFamilies(task) <= families
            && (forall m :: m in ladder ==> m.family.Some?)
            && forall i, j :: 0 <= i < j < |ladder| ==> IsBefore(families, catalog, ladder[i], ladder[j])
  {
    var families := LadderFamilies(task, |ALL_FAMILIES|);
    FamiliesDistinct(task, |ALL_FAMILIES|);
    AddFamiliesOrdered(families, |families|, catalog, task, maximum);
    PreferredFirst(task, |ALL_FAMILIES|);
  }

  lemma {:induction false} PreferredFirst(task: TaskClass, n: nat)
    requires n <= |ALL_FAMILIES|
    ensures TaskFamilies(task) <= LadderFamilies(task, n)
  {
    if n > 0 {
      PreferredFirst(task, n - 1);
    }
  }
}

/** Application-wide jobs: seeding the default categories, deleting image files no recipe refers
    to, and the coalescing automatic WebDAV upload. */
module App {
  import opened Wrappers
  import WebDavSyncConfig

  // ---------------------------------------------------------------- default categories

  /** A stored category row, in the order `getAll` returns them (by sort order, then id). */
  datatype CategoryRecord = CategoryRecord(id: int, name: string, sortOrder: int)

  const DEFAULT_CATEGORY_NAMES: seq<string> := ["未分类", "主食", "小食"]

  /** What the category DAO reports while seeding: the ids `insertAll` returns and the rows
      `getAll` returns (either may be null), and whether a DAO call throws. */
  datatype DaoAnswers = DaoAnswers(insertedIds: Option<seq<int>>, listed: Option<seq<CategoryRecord>>, throws: bool)

  /** A DAO that behaves: nothing throws, `getAll` lists the table and `insertAll` reports the
      three ids it assigned from `nextId` on. */
  predicate WorkingDao(table: seq<CategoryRecord>, nextId: int, dao: DaoAnswers) {
    !dao.throws && dao.listed == Some(table) && dao.insertedIds == Some([nextId, nextId + 1, nextId + 2])
  }

  /** `ensureDefaultCategories` over the category table: an empty table receives the three
      defaults with sort orders 0, 1, 2 and fresh ids from `nextId` on, and the first reported id
      is returned; otherwise the table is untouched and the first listed row's id is returned.
      A null or empty DAO answer gives `None`, and so does a throwing DAO call, which is taken to
      fail before anything is written. */
  function EnsureDefaultCategories(table: seq<CategoryRecord>, nextId: int, dao: DaoAnswers): (r: (seq<CategoryRecord>, Option<int>))
    ensures dao.throws ==> r == (table, None)
    ensures !dao.throws && |table| == 0 ==> |r.0| == 3 && forall i :: 0 <= i < 3 ==>
      r.0[i].name == DEFAULT_CATEGORY_NAMES[i] && r.0[i].sortOrder == i && r.0[i].id == nextId + i
    ensures |table| > 0 ==> r.0 == table
    ensures r.1.Some? <==> (!dao.throws &&
      if |table| == 0 then dao.insertedIds.Some? && dao.insertedIds.value != []
      else dao.listed.Some? && dao.listed.value != [])
    ensures r.1.Some? && |table| == 0 ==> r.1.value == dao.insertedIds.value[0]
    ensures r.1.Some? && |table| > 0 ==> r.1.value == dao.listed.value[0].id
  {
    if dao.throws then
      (table, None)
    else if |table| == 0 then
      var defaults := [CategoryRecord(nextId, DEFAULT_CATEGORY_NAMES[0], 0),
                       CategoryRecord(nextId + 1, DEFAULT_CATEGORY_NAMES[1], 1),
                       CategoryRecord(nextId + 2, DEFAULT_CATEGORY_NAMES[2], 2)];
      var ids := dao.insertedIds;
      (defaults, if ids.Some? && ids.value != [] then Some(ids.value[0]) else None)
    else
      var listed := dao.listed;
      (table, if listed.Some? && listed.value != [] then Some(listed.value[0].id) else None)
  }

  /** With a working DAO a default category always exists afterwards and its id is returned:
      the first row of the (possibly just seeded) table. */
  lemma WorkingDaoYieldsDefault(table: seq<CategoryRecord>, nextId: int, dao: DaoAnswers)
    requires WorkingDao(table, nextId, dao)
    ensures var (t1, d1) := EnsureDefaultCategories(table, nextId, dao);
      t1 != [] && d1 == Some(t1[0].id)
  {
  }

  /** Running the seeding again over a working DAO changes nothing and returns the same default
      category. */
  lemma EnsureDefaultCategoriesIdempotent(table: seq<CategoryRecord>, nextId: int, dao: DaoAnswers,
                                          laterId: int, laterDao: DaoAnswers)
    requires WorkingDao(table, nextId, dao)
    requires WorkingDao(EnsureDefaultCategories(table, nextId, dao).0, laterId, laterDao)
    ensures var (t1, d1) := EnsureDefaultCategories(table, nextId, dao);
      EnsureDefaultCategories(t1, laterId, laterDao) == (t1, d1)
  {
  }

  // ---------------------------------------------------------------- image cleanup

  /** A step list as Gson yields it: a parse failure, JSON `null`, or the (possibly null) items. */
  datatype ParsedSteps = StepsMalformed | StepsNull | Steps(items: seq<Option<ParsedStep>>)
  datatype ParsedStep = ParsedStep(imagePaths: Option<seq<string>>)
  /** An ingredient as Gson yields it. */
  datatype ParsedIngredient = IngredientMalformed | IngredientNull | Ingredient(imagePaths: Option<seq<string>>)

  /** The image-bearing columns of a recipe row. */
  datatype RecipeImages = RecipeImages(coverImagePath: Option<string>, stepsJson: Option<string>, ingredientJson: Option<string>)

  /** One entry of the `images/` listing. */
  datatype ImageEntry = ImageEntry(absolutePath: string, isFile: bool)

  function PathSet(paths: Option<seq<string>>): (r: set<string>)
    ensures forall p :: p in r <==> paths.Some? && p in paths.value
  {
    if paths.None? then {} else set p | p in paths.value
  }

  /** Paths of the steps in order, up to the first null step: dereferencing it throws, and the
      handler keeps what was added before. */
  function StepPaths(items: seq<Option<ParsedStep>>): set<string> {
    if items == [] || items[0].None? then {}
    else PathSet(items[0].value.imagePaths) + StepPaths(items[1..])
  }

  /** Every path of a step before the first null step counts. */
  lemma {:induction false} StepPathsPrefix(items: seq<Option<ParsedStep>>, k: int, p: string)
    requires 0 <= k < |items| && items[k].Some? && p in PathSet(items[k].value.imagePaths)
    requires forall j :: 0 <= j < k ==> items[j].Some?
    ensures p in StepPaths(items)
  {
    if k > 0 {
      StepPathsPrefix(items[1..], k - 1, p);
    }
  }

  function NonEmpty(s: Option<string>): bool {
    s.Some? && s.value != []
  }

  /** The paths one recipe keeps alive: its non-empty cover, its step images and its
      ingredient images; a field that fails to parse contributes nothing. */
  function RecipePaths(r: RecipeImages, parseSteps: string -> ParsedSteps,
                       parseIngredient: string -> ParsedIngredient): set<string>
  {
    (if NonEmpty(r.coverImagePath) then {r.coverImagePath.value} else {}) +
    (if NonEmpty(r.stepsJson) && parseSteps(r.stepsJson.value).Steps?
     then StepPaths(parseSteps(r.stepsJson.value).items) else {}) +
    (if NonEmpty(r.ingredientJson) && parseIngredient(r.ingredientJson.value).Ingredient?
     then PathSet(parseIngredient(r.ingredientJson.value).imagePaths) else {})
  }

  /** The set of referenced paths over all recipes. */
  function Referenced(recipes: seq<RecipeImages>, parseSteps: string -> ParsedSteps,
                      parseIngredient: string -> ParsedIngredient): set<string>
  {
    if recipes == [] then {}
    else Referenced(recipes[..|recipes| - 1], parseSteps, parseIngredient) +
         RecipePaths(recipes[|recipes| - 1], parseSteps, parseIngredient)
  }

  /** A path is referenced exactly when some recipe references it, so a recipe whose JSON is
      broken never hides the paths of the others. */
  lemma {:induction false} ReferencedExactly(recipes: seq<RecipeImages>, parseSteps: string -> ParsedSteps,
                                             parseIngredient: string -> ParsedIngredient, p: string)
    ensures p in Referenced(recipes, parseSteps, parseIngredient) <==>
      exists i :: 0 <= i < |recipes| && p in RecipePaths(recipes[i], parseSteps, parseIngredient)
  {
    if recipes != [] {
      var init := recipes[..|recipes| - 1];
      ReferencedExactly(init, parseSteps, parseIngredient, p);
      if p in Referenced(init, parseSteps, parseIngredient) {
        var i :| 0 <= i < |init| && p in RecipePaths(init[i], parseSteps, parseIngredient);
        assert recipes[i] == init[i];
      }
      if exists i :: 0 <= i < |recipes| && p in RecipePaths(recipes[i], parseSteps, parseIngredient) {
        var i :| 0 <= i < |recipes| && p in RecipePaths(recipes[i], parseSteps, parseIngredient);
        if i < |init| {
          assert init[i] == recipes[i];
        }
      }
    }
  }

  /** The listing entries the cleanup deletes, in listing order. */
  function Unreferenced(listing: seq<ImageEntry>, referenced: set<string>): seq<string> {
    if listing == [] then []
    else
      var e := listing[|listing| - 1];
      Unreferenced(listing[..|listing| - 1], referenced) +
      (if e.isFile && e.absolutePath !in referenced then [e.absolutePath] else [])
  }

  /** Exactly the regular files whose path no recipe references are deleted; directories and
      referenced files are never touched. */
  lemma {:induction false} UnreferencedExactly(listing: seq<ImageEntry>, referenced: set<string>, p: string)
    ensures p in Unreferenced(listing, referenced) <==>
      p !in referenced && exists i :: 0 <= i < |listing| && listing[i].isFile && listing[i].absolutePath == p
  {
    if listing != [] {
      var init := listing[..|listing| - 1];
      UnreferencedExactly(init, referenced, p);
      if exists i :: 0 <= i < |listing| && listing[i].isFile && listing[i].absolutePath == p {
        var i :| 0 <= i < |listing| && listing[i].isFile && listing[i].absolutePath == p;
        if i < |init| {
          assert init[i] == listing[i];
        }
      }
    }
  }

  /** The step loop of the cleanup: adds step paths until the first null step. */
  method AddStepPaths(acc: set<string>, items: seq<Option<ParsedStep>>) returns (r: set<string>)
    ensures r == acc + StepPaths(items)
  {
    r := acc;
    var k := 0;
    while k < |items|
      invariant 0 <= k <= |items|
      invariant r + StepPaths(items[k..]) == acc + StepPaths(items)
    {
      var step := items[k];
      if step.None? {
        break;
      }
      assert items[k..][1..] == items[k + 1..];
      var paths := step.value.imagePaths;
      if paths.Some? {
        r := r + PathSet(paths);
      }
      k := k + 1;
    }
  }

  /** `cleanupUnusedImages`: gathers the referenced paths, then returns the top-level regular
      files of `images/` to delete; a missing recipe list or a missing or unreadable directory
      deletes nothing. */
  method CleanupUnusedImages(recipes: Option<seq<RecipeImages>>, parseSteps: string -> ParsedSteps,
                             parseIngredient: string -> ParsedIngredient,
                             listing: Option<seq<ImageEntry>>) returns (deleted: seq<string>)
    ensures recipes.None? || listing.None? ==> deleted == []
    ensures recipes.Some? && listing.Some? ==>
      deleted == Unreferenced(listing.value, Referenced(recipes.value, parseSteps, parseIngredient))
  {
    if recipes.None? {
      return [];
    }
    var databaseImagePaths := CollectReferencedImages(recipes.value, parseSteps, parseIngredient);
    if listing.None? {
      return [];
    }
    deleted := SelectUnreferenced(listing.value, databaseImagePaths);
  }

  /** `cleanupUnusedImages`'s first loop: every image path the recipes reference. */
  method CollectReferencedImages(rs: seq<RecipeImages>, parseSteps: string -> ParsedSteps,
                                 parseIngredient: string -> ParsedIngredient) returns (paths: set<string>)
    ensures paths == Referenced(rs, parseSteps, parseIngredient)
  {
    paths := {};
    var i := 0;
    while i < |rs|
      invariant 0 <= i <= |rs|
      invariant paths == Referenced(rs[..i], parseSteps, parseIngredient)
    {
      assert rs[..i + 1][..i] == rs[..i];
      paths := AddRecipePaths(paths, rs[i], parseSteps, parseIngredient);
      i := i + 1;
    }
    assert rs[..|rs|] == rs;
  }

  /** One pass of the first loop: a recipe's non-empty cover, the images of its parsed steps and
      the images of its parsed ingredients join the set. */
  method AddRecipePaths(paths: set<string>, recipe: RecipeImages, parseSteps: string -> ParsedSteps,
                        parseIngredient: string -> ParsedIngredient) returns (r: set<string>)
    ensures r == paths + RecipePaths(recipe, parseSteps, parseIngredient)
  {
    r := paths;
    if NonEmpty(recipe.coverImagePath) {
      r := r + {recipe.coverImagePath.value};
    }
    if NonEmpty(recipe.stepsJson) {
      var steps := parseSteps(recipe.stepsJson.value);
      if steps.Steps? {
        r := AddStepPaths(r, steps.items);
      }
    }
    if NonEmpty(recipe.ingredientJson) {
      var ingredient := parseIngredient(recipe.ingredientJson.value);
      if ingredient.Ingredient? && ingredient.imagePaths.Some? {
        r := r + PathSet(ingredient.imagePaths);
      }
    }
  }

  /** `cleanupUnusedImages`'s second loop: the regular files no recipe references. */
  method SelectUnreferenced(imageFiles: seq<ImageEntry>, referenced: set<string>) returns (deleted: seq<string>)
    ensures deleted == Unreferenced(imageFiles, referenced)
  {
    deleted := [];
    var j := 0;
    while j < |imageFiles|
      invariant 0 <= j <= |imageFiles|
      invariant deleted == Unreferenced(imageFiles[..j], referenced)
    {
      assert imageFiles[..j + 1][..j] == imageFiles[..j];
      var imageFile := imageFiles[j];
      if imageFile.isFile && imageFile.absolutePath !in referenced {
        deleted := deleted + [imageFile.absolutePath];
      }
      j := j + 1;
    }
    assert imageFiles[..|imageFiles|] == imageFiles;
  }

  // ---------------------------------------------------------------- automatic upload

  /** Where the single auto-sync worker thread is: not in a task, about to test-and-clear the
      request flag, or inside an upload pass. */
  datatype Phase = Idle | Checking | Uploading

  /** The two atomic flags, the worker tasks waiting in the single-thread executor, the worker's
      phase, and the number of upload passes started so far. */
  datatype AutoSync = AutoSync(requested: bool, running: bool, queued: nat, phase: Phase, passes: nat)

  /** The atomic steps the threads take, interleaved in any order. */
  datatype Event =
    | Request(configured: bool)   // `requestAutoWebDavUploadIfConfigured`, config present or not
    | StartTask                   // the executor runs a queued task: compareAndSet(false, true)
    | Check(configured: bool)     // loop head: getAndSet(false), then reload the config
    | FinishPass                  // an upload pass ends, normally or by a swallowed exception

  const Init: AutoSync := AutoSync(false, false, 0, Idle, 0)

  function Step(s: AutoSync, e: Event): AutoSync {
    match e
    case Request(configured) =>
      if configured then s.(requested := true, queued := s.queued + 1) else s
    case StartTask =>
      if s.phase == Idle && s.queued > 0 then
        if s.running then s.(queued := s.queued - 1)
        else s.(queued := s.queued - 1, running := true, phase := Checking)
      else s
    case Check(configured) =>
      if s.phase == Checking then
        if !s.requested then s.(running := false, phase := Idle)
        else if !configured then s.(requested := false, running := false, phase := Idle)
        else s.(requested := false, phase := Uploading)
      else s
    case FinishPass =>
      if s.phase == Uploading then s.(passes := s.passes + 1, phase := Checking) else s
  }

  function Run(s: AutoSync, events: seq<Event>): AutoSync
    decreases |events|
  {
    if events == [] then s else Run(Step(s, events[0]), events[1..])
  }

  /** `running` is set exactly while a worker task is inside its loop. */
  predicate Inv(s: AutoSync) {
    s.running <==> s.phase != Idle
  }

  lemma StepKeepsInv(s: AutoSync, e: Event)
    requires Inv(s)
    ensures Inv(Step(s, e))
    ensures e == StartTask && s.phase == Idle && s.queued > 0 ==> Step(s, e).phase == Checking
  {
  }

  /** From start-up, under any interleaving, `running` is reset on every exit path and a task
      never finds another loop running (the executor has one thread), so there is never more
      than one worker loop. */
  lemma {:induction false} RunKeepsInv(s: AutoSync, events: seq<Event>)
    requires Inv(s)
    ensures Inv(Run(s, events))
    decreases |events|
  {
    if events != [] {
      StepKeepsInv(s, events[0]);
      RunKeepsInv(Step(s, events[0]), events[1..]);
    }
  }

  predicate WorkerEvent(e: Event) {
    !e.Request?
  }

  /** Passes the worker may still start without a new request: the one in flight and one
      follow-up for a pending request. */
  function Budget(s: AutoSync): nat {
    (if s.phase == Uploading then 1 else 0) + (if s.requested then 1 else 0)
  }

  lemma {:induction false} WorkerEventsSpendBudget(s: AutoSync, events: seq<Event>)
    requires forall k :: 0 <= k < |events| ==> WorkerEvent(events[k])
    ensures Run(s, events).passes + Budget(Run(s, events)) <= s.passes + Budget(s)
    decreases |events|
  {
    if events != [] {
      WorkerEventsSpendBudget(Step(s, events[0]), events[1..]);
    }
  }

  lemma {:induction false} RequestsRaiseBudgetByOne(s: AutoSync, requests: seq<Event>)
    requires forall k :: 0 <= k < |requests| ==> requests[k].Request?
    ensures Run(s, requests).passes == s.passes && Run(s, requests).phase == s.phase
    ensures Budget(Run(s, requests)) <= (if s.phase == Uploading then 1 else 0) + 1
    decreases |requests|
  {
    if requests != [] {
      RequestsRaiseBudgetByOne(Step(s, requests[0]), requests[1..]);
    }
  }

  /** Coalescing: however many requests arrive while a pass is uploading, the worker starts at
      most one more pass after it before the next request. */
  lemma Coalescing(s: AutoSync, requests: seq<Event>, rest: seq<Event>)
    requires s.phase == Uploading
    requires forall k :: 0 <= k < |requests| ==> requests[k].Request?
    requires forall k :: 0 <= k < |rest| ==> WorkerEvent(rest[k])
    ensures Run(s, requests + rest).passes <= s.passes + 2
  {
    RequestsRaiseBudgetByOne(s, requests);
    WorkerEventsSpendBudget(Run(s, requests), rest);
    RunAppend(s, requests, rest);
  }

  lemma {:induction false} RunAppend(s: AutoSync, a: seq<Event>, b: seq<Event>)
    ensures Run(s, a + b) == Run(Run(s, a), b)
    decreases |a|
  {
    if a == [] {
      assert a + b == b;
    } else {
      assert (a + b)[1..] == a[1..] + b;
      RunAppend(Step(s, a[0]), a[1..], b);
    }
  }

  /** A configured request made during a pass is not lost: it yields a follow-up pass. */
  lemma RequestDuringPassIsServed(s: AutoSync)
    requires s.phase == Uploading
    ensures var t := Run(s, [Request(true), FinishPass, Check(true)]);
      t.phase == Uploading && t.passes == s.passes + 1 && !t.requested
  {
  }

  /** A follow-up pass is skipped when the configuration was removed meanwhile, and the worker
      leaves with both flags cleared. */
  lemma RemovedConfigStopsLoop(s: AutoSync)
    requires s.phase == Checking && s.requested
    ensures var t := Step(s, Check(false));
      t.phase == Idle && !t.running && !t.requested && t.passes == s.passes
  {
  }

  /** The application object's auto-sync fields, driven one atomic step at a time: the two
      atomic flags of `App`. The executor's queue, the worker's position in its loop
      and the count of finished passes are not fields of `App`; they are ghost bookkeeping that
      lets the contracts speak about the worker. */
  class AutoSyncController {
    var requested: bool
    var running: bool
    ghost var queued: nat
    ghost var phase: Phase
    ghost var passes: nat

    ghost function State(): AutoSync
      reads this
    {
      AutoSync(requested, running, queued, phase, passes)
    }

    ghost predicate Valid()
      reads this
    {
      Inv(State())
    }

    constructor ()
      ensures State() == Init && Valid()
    {
      requested := false;
      running := false;
      queued := 0;
      phase := Idle;
      passes := 0;
    }

    /** `requestAutoWebDavUploadIfConfigured`: with no stored configuration nothing happens;
        otherwise the request flag is raised and one worker task is queued. */
    method RequestAutoWebDavUploadIfConfigured(prefs: WebDavSyncConfig.Prefs)
      requires Valid()
      modifies this
      ensures State() == Step(old(State()), Request(WebDavSyncConfig.Load(prefs).Some?)) && Valid()
    {
      var config := WebDavSyncConfig.Load(prefs);
      if config.Some? {
        RaiseRequest();
      }
    }

    /** `autoSyncRequested.set(true)` and the task handed to the executor. */
    method RaiseRequest()
      requires Valid()
      modifies this
      ensures State() == Step(old(State()), Request(true)) && Valid()
    {
      requested := true;
      queued := queued + 1;
    }

    /** The executor starts a queued task; `compareAndSet(false, true)` on `running`. */
    method StartTask() returns (started: bool)
      requires Valid() && phase == Idle && queued > 0
      modifies this
      ensures State() == Step(old(State()), Event.StartTask) && Valid()
      ensures started
    {
      queued := queued - 1;
      if running {
        return false;
      }
      running := true;
      phase := Checking;
      return true;
    }

    /** The loop head: `getAndSet(false)` on `requested`, then the configuration reloaded;
        leaving the loop resets `running`. */
    method LoopCheck(prefs: WebDavSyncConfig.Prefs) returns (upload: Option<WebDavSyncConfig.Config>)
      requires Valid() && phase == Checking
      modifies this
      ensures State() == Step(old(State()), Check(WebDavSyncConfig.Load(prefs).Some?)) && Valid()
      ensures upload.Some? <==> phase == Uploading
      ensures upload.Some? ==> upload == WebDavSyncConfig.Load(prefs)
    {
      ghost var s := State();
      var wasRequested := requested;
      requested := false;
      if !wasRequested {
        running := false;
        phase := Idle;
        assert State() == s.(running := false, phase := Idle);
        return None;
      }
      var latestConfig := WebDavSyncConfig.Load(prefs);
      if latestConfig.None? {
        running := false;
        phase := Idle;
        assert State() == s.(requested := false, running := false, phase := Idle);
        return None;
      }
      phase := Uploading;
      assert State() == s.(requested := false, phase := Uploading);
      return latestConfig;
    }

    /** The upload pass returns or throws; either way the loop goes back to its head. */
    method FinishPass()
      requires Valid() && phase == Uploading
      modifies this
      ensures State() == Step(old(State()), Event.FinishPass) && Valid()
    {
      passes := passes + 1;
      phase := Checking;
    }

    /** `isAutoWebDavUploading`: true exactly while a worker loop is active. */
    function IsAutoWebDavUploading(): (uploading: bool)
      reads this
      ensures Valid() ==> (uploading <==> phase != Idle)
    {
      running
    }
  }
}

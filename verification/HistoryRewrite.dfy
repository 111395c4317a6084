/**
 Correcting how an email was categorized (db/store.go, `RewriteHistoryForMessages`,
 `GetHistoryStateForMessages`; recategorize.go, `singleRecategorizeVerdicts` and the diff of
 `handleRecategorize`; recategorize_bulk.go, `bulkVerdictsAndPlan`, `parseBulkSelections`).

 A correction turns the rules a message currently matches and what the user asked for into a
 plan, and the plan into deleted and added history rows. Reading the message back then gives
 exactly the corrected set, the rows keep their shape, no other message changes, and the
 verdicts recorded for the rules say what really changed.
 */
module HistoryRewrite {
  import opened Wrappers

  datatype Rule = Rule(id: int, name: string, labelName: string)

  datatype Row = Row(message: string, subject: string, sender: string,
                     prompt: Option<int>, name: Option<string>, labelName: Option<string>, actions: string)

  /** One account's history, by sort key. */
  type Rows = map<nat, Row>

  datatype Plan = Plan(message: string, subject: string, sender: string, kept: seq<int>, added: seq<Rule>)

  function Elements<T>(xs: seq<T>): set<T> {
    set x | x in xs
  }

  function Ids(prompts: seq<Rule>): set<int> {
    set p | p in prompts :: p.id
  }

  /** The rules a message currently matches. */
  function Current(rows: Rows, m: string): set<int> {
    set k | k in rows && rows[k].message == m && rows[k].prompt.Some? :: rows[k].prompt.value
  }

  // ---------------------------------------------------------------- the rewrite

  predicate Drops(plan: Plan, row: Row) {
    row.message == plan.message && (plan.kept == [] || row.prompt.None? || row.prompt.value !in plan.kept)
  }

  function ManualRow(plan: Plan, p: Rule): Row {
    Row(plan.message, plan.subject, plan.sender, Some(p.id), Some(p.name),
        if p.labelName == "" then None else Some(p.labelName), "manual")
  }

  function NoMatchRow(plan: Plan): Row {
    Row(plan.message, plan.subject, plan.sender, None, None, None, "")
  }

  function AddedRows(plan: Plan, prompts: seq<Rule>): (rows: seq<Row>)
    ensures |rows| == |prompts|
    ensures forall k | 0 <= k < |prompts| :: rows[k] == ManualRow(plan, prompts[k])
  {
    seq(|prompts|, k requires 0 <= k < |prompts| => ManualRow(plan, prompts[k]))
  }

  function NewRows(plan: Plan): seq<Row> {
    if plan.kept == [] && plan.added == [] then [NoMatchRow(plan)] else AddedRows(plan, plan.added)
  }

  function AllNewRows(plans: seq<Plan>): seq<Row> {
    if plans == [] then [] else AllNewRows(plans[..|plans| - 1]) + NewRows(plans[|plans| - 1])
  }

  predicate Dropped(plans: seq<Plan>, row: Row) {
    exists p | p in plans :: Drops(p, row)
  }

  function Remaining(rows: Rows, plans: seq<Plan>): Rows {
    map k | k in rows && !Dropped(plans, rows[k]) :: rows[k]
  }

  function Inserted(rows: Rows, next: nat, added: seq<Row>): Rows {
    if added == [] then rows
    else Inserted(rows, next, added[..|added| - 1])[next + |added| - 1 := added[|added| - 1]]
  }

  /** The rows after the rewrite: the dropped ones gone, the new ones under fresh keys. */
  function Rewritten(rows: Rows, next: nat, plans: seq<Plan>): Rows {
    Inserted(Remaining(rows, plans), next, AllNewRows(plans))
  }

  lemma OnePlanMore(plans: seq<Plan>, i: nat)
    requires i < |plans|
    ensures AllNewRows(plans[..i + 1]) == AllNewRows(plans[..i]) + NewRows(plans[i])
    ensures forall row: Row :: Dropped(plans[..i + 1], row) <==> Dropped(plans[..i], row) || Drops(plans[i], row)
  {
    assert plans[..i + 1] == plans[..i] + [plans[i]] && plans[..i + 1][..i] == plans[..i];
  }

  /** What to delete and what to put, before anything is written. */
  method PlanRewrite(items: Rows, plans: seq<Plan>) returns (deleteKeys: set<nat>, putItems: seq<Row>)
    ensures forall k :: k in deleteKeys <==> k in items && Dropped(plans, items[k])
    ensures putItems == AllNewRows(plans)
  {
    deleteKeys, putItems := {}, [];
    for i := 0 to |plans|
      invariant forall k :: k in deleteKeys <==> k in items && Dropped(plans[..i], items[k])
      invariant putItems == AllNewRows(plans[..i])
    {
      var p := plans[i];
      OnePlanMore(plans, i);
      deleteKeys := deleteKeys + set k | k in items && Drops(p, items[k]);
      if |p.kept| == 0 && |p.added| == 0 {
        putItems := putItems + [NoMatchRow(p)];
      } else {
        putItems := putItems + AddedRows(p, p.added);
      }
    }
    assert plans[..|plans|] == plans;
  }

  method BatchPut(rows: Rows, next: nat, putItems: seq<Row>) returns (after: Rows)
    ensures after == Inserted(rows, next, putItems)
  {
    after := rows;
    for j := 0 to |putItems|
      invariant after == Inserted(rows, next, putItems[..j])
    {
      assert putItems[..j + 1][..j] == putItems[..j];
      after := after[next + j := putItems[j]];
    }
    assert putItems[..|putItems|] == putItems;
  }

  class History {
    var rows: Rows
    /** Keys from here on are unused. */
    var next: nat

    ghost predicate Valid()
      reads this
    {
      forall k | k in rows :: k < next
    }

    constructor ()
      ensures Valid() && rows == map[]
    {
      rows, next := map[], 0;
    }

    method RewriteHistoryForMessages(plans: seq<Plan>)
      requires Valid()
      modifies this
      ensures Valid()
      ensures rows == Rewritten(old(rows), old(next), plans) && next == old(next) + |AllNewRows(plans)|
    {
      var deleteKeys, putItems := PlanRewrite(rows, plans);
      rows := rows - deleteKeys;
      ghost var remaining := Remaining(old(rows), plans);
      assert rows == remaining;
      rows := BatchPut(rows, next, putItems);
      forall k | k in rows ensures k < next + |putItems| {
        InsertedAt(remaining, next, putItems, k);
      }
      next := next + |putItems|;
    }
  }

  // ---------------------------------------------------------------- reading back

  ghost predicate KeysBelow(rows: Rows, next: nat) {
    forall k | k in rows :: k < next
  }

  lemma {:induction false} InsertedAt(rows: Rows, next: nat, added: seq<Row>, k: nat)
    requires KeysBelow(rows, next)
    ensures k in Inserted(rows, next, added) <==> k in rows || next <= k < next + |added|
    ensures k in rows ==> Inserted(rows, next, added)[k] == rows[k]
    ensures next <= k < next + |added| ==> Inserted(rows, next, added)[k] == added[k - next]
  {
    if added != [] {
      InsertedAt(rows, next, added[..|added| - 1], k);
    }
  }

  ghost predicate DistinctMessages(plans: seq<Plan>) {
    forall i, j | 0 <= i < j < |plans| :: plans[i].message != plans[j].message
  }

  lemma {:induction false} NewRowsOf(plans: seq<Plan>, plan: Plan)
    requires DistinctMessages(plans) && plan in plans
    ensures forall row: Row :: row in AllNewRows(plans) && row.message == plan.message <==> row in NewRows(plan)
  {
    var before, last := plans[..|plans| - 1], plans[|plans| - 1];
    assert plans == before + [last];
    if plan == last {
      NoNewRows(before, plan.message);
    } else {
      assert plan in before;
      NewRowsOf(before, plan);
      var i: nat :| i < |before| && before[i] == plan;
      assert last.message != plan.message;
    }
  }

  lemma {:induction false} NoNewRows(plans: seq<Plan>, m: string)
    requires forall p | p in plans :: p.message != m
    ensures forall row: Row | row in AllNewRows(plans) :: row.message != m
  {
    if plans != [] {
      var last := plans[|plans| - 1];
      assert plans == plans[..|plans| - 1] + [last];
      NoNewRows(plans[..|plans| - 1], m);
      assert last.message != m;
    }
  }

  lemma SamePlan(plans: seq<Plan>, i: nat, j: nat)
    requires DistinctMessages(plans) && i < |plans| && j < |plans| && plans[i].message == plans[j].message
    ensures i == j
  {
  }

  lemma DroppedByOwn(plans: seq<Plan>, plan: Plan, row: Row)
    requires DistinctMessages(plans) && plan in plans && row.message == plan.message
    ensures Dropped(plans, row) <==> Drops(plan, row)
  {
    var i: nat :| i < |plans| && plans[i] == plan;
    forall p | p in plans && Drops(p, row) ensures p == plan {
      var j: nat :| j < |plans| && plans[j] == p;
      SamePlan(plans, i, j);
    }
  }

  /** A row is there after a rewrite exactly when it is a new one or one that remains. */
  lemma RowsRewritten(rows: Rows, next: nat, plans: seq<Plan>, row: Row)
    requires KeysBelow(rows, next)
    ensures (exists k :: k in Rewritten(rows, next, plans) && Rewritten(rows, next, plans)[k] == row)
            <==> row in AllNewRows(plans) || (exists k :: k in rows && rows[k] == row && !Dropped(plans, row))
  {
    var after, remaining, added := Rewritten(rows, next, plans), Remaining(rows, plans), AllNewRows(plans);
    if k :| k in after && after[k] == row {
      InsertedAt(remaining, next, added, k);
      assert k !in remaining ==> row == added[k - next];
    }
    if j: nat :| j < |added| && added[j] == row {
      InsertedAt(remaining, next, added, next + j);
      assert next + j in after && after[next + j] == row;
    }
    if k :| k in rows && rows[k] == row && !Dropped(plans, row) {
      InsertedAt(remaining, next, added, k);
      assert k in remaining && k in after && after[k] == row;
    }
  }

  /** A row of a planned message after the rewrite: an old one it keeps, or a new one. */
  lemma RowsAfter(rows: Rows, next: nat, plans: seq<Plan>, plan: Plan, row: Row)
    requires KeysBelow(rows, next) && DistinctMessages(plans) && plan in plans && row.message == plan.message
    ensures var after := Rewritten(rows, next, plans);
            (exists k :: k in after && after[k] == row)
            <==> row in NewRows(plan) || (exists k :: k in rows && rows[k] == row && !Drops(plan, row))
  {
    RowsRewritten(rows, next, plans, row);
    NewRowsOf(plans, plan);
    DroppedByOwn(plans, plan, row);
  }

  /** Reading a planned message back gives the kept rules it had and the added ones. */
  lemma ReadBack(rows: Rows, next: nat, plans: seq<Plan>, plan: Plan)
    requires KeysBelow(rows, next) && DistinctMessages(plans) && plan in plans
    ensures Current(Rewritten(rows, next, plans), plan.message)
            == Current(rows, plan.message) * Elements(plan.kept) + Ids(plan.added)
  {
    var after, m := Rewritten(rows, next, plans), plan.message;
    forall id
      ensures id in Current(after, m) <==> (id in Current(rows, m) && id in plan.kept) || id in Ids(plan.added)
    {
      if id in Current(after, m) {
        var k :| k in after && after[k].message == m && after[k].prompt == Some(id);
        RowsAfter(rows, next, plans, plan, after[k]);
        InNewRows(plan, after[k]);
      }
      if id in Current(rows, m) && id in plan.kept {
        var k :| k in rows && rows[k].message == m && rows[k].prompt == Some(id);
        RowsAfter(rows, next, plans, plan, rows[k]);
      }
      if id in Ids(plan.added) {
        var p :| p in plan.added && p.id == id;
        InNewRows(plan, ManualRow(plan, p));
        RowsAfter(rows, next, plans, plan, ManualRow(plan, p));
      }
    }
  }

  lemma InNewRows(plan: Plan, row: Row)
    ensures row in NewRows(plan) <==>
            if plan.kept == [] && plan.added == [] then row == NoMatchRow(plan)
            else exists p :: p in plan.added && row == ManualRow(plan, p)
  {
    if row in AddedRows(plan, plan.added) {
      var k: nat :| k < |plan.added| && AddedRows(plan, plan.added)[k] == row;
      assert plan.added[k] in plan.added;
    }
    if p :| p in plan.added && row == ManualRow(plan, p) {
      var k: nat :| k < |plan.added| && plan.added[k] == p;
      assert AddedRows(plan, plan.added)[k] == row;
    }
  }

  /** What a new row says: the message's subject and sender as planned, and the rule it is for as a
      manual match, or nothing. */
  lemma NewRowSays(plan: Plan, row: Row)
    requires row in NewRows(plan)
    ensures row.message == plan.message && row.subject == plan.subject && row.sender == plan.sender
    ensures if plan.kept == [] && plan.added == []
            then row.prompt == None && row.name == None && row.labelName == None && row.actions == ""
            else row.actions == "manual" && exists p ::
                   && p in plan.added && row.prompt == Some(p.id) && row.name == Some(p.name)
                   && row.labelName == if p.labelName == "" then None else Some(p.labelName)
  {
    InNewRows(plan, row);
  }

  /** The keys of a message no plan names, and what is under them, stay as they were. */
  lemma UnplannedUntouched(rows: Rows, next: nat, plans: seq<Plan>, m: string, k: nat)
    requires KeysBelow(rows, next) && forall p | p in plans :: p.message != m
    ensures var after := Rewritten(rows, next, plans);
            (k in after && after[k].message == m <==> k in rows && rows[k].message == m)
            && (k in rows && rows[k].message == m ==> after[k] == rows[k])
  {
    var after, remaining, added := Rewritten(rows, next, plans), Remaining(rows, plans), AllNewRows(plans);
    InsertedAt(remaining, next, added, k);
    NoNewRows(plans, m);
    if k in after && k !in remaining {
      assert after[k] == added[k - next];
      assert added[k - next] in added;
    }
  }

  function KeysOf(rows: Rows, m: string): set<nat> {
    set k | k in rows && rows[k].message == m
  }

  /** A planned message ends with matched rows only, and then some, or with one no-match row and
      nothing else, as long as its plan keeps only rules it had. */
  lemma ShapeAfter(rows: Rows, next: nat, plans: seq<Plan>, plan: Plan)
    requires KeysBelow(rows, next) && DistinctMessages(plans) && plan in plans
    requires Elements(plan.kept) <= Current(rows, plan.message)
    ensures var after := Rewritten(rows, next, plans);
            if plan.kept == [] && plan.added == []
            then Current(after, plan.message) == {} &&
                 forall k | k in KeysOf(after, plan.message) :: after[k] == NoMatchRow(plan)
            else Current(after, plan.message) != {} &&
                 forall k | k in KeysOf(after, plan.message) :: after[k].prompt.Some?
  {
    var after, m := Rewritten(rows, next, plans), plan.message;
    ReadBack(rows, next, plans, plan);
    forall k | k in KeysOf(after, m)
      ensures if plan.kept == [] && plan.added == [] then after[k] == NoMatchRow(plan) else after[k].prompt.Some?
    {
      RowsAfter(rows, next, plans, plan, after[k]);
      InNewRows(plan, after[k]);
    }
    if plan.kept != [] {
      assert plan.kept[0] in Elements(plan.kept);
      assert plan.kept[0] in Current(after, m);
    } else if plan.added != [] {
      assert plan.added[0].id in Ids(plan.added);
      assert plan.added[0].id in Current(after, m);
    }
  }

  /** The last plan's rows are not another message's. */
  lemma ElsewhereToo(plans: seq<Plan>, m: string, j: nat)
    requires plans != [] && plans[|plans| - 1].message != m
    requires var before := AllNewRows(plans[..|plans| - 1]);
             j < |before| && forall i: nat | i < |before| && i != j :: before[i].message != m
    ensures forall i: nat | i < |AllNewRows(plans)| && i != j :: AllNewRows(plans)[i].message != m
  {
    var before, last := AllNewRows(plans[..|plans| - 1]), NewRows(plans[|plans| - 1]);
    forall i: nat | i < |AllNewRows(plans)| && i != j ensures AllNewRows(plans)[i].message != m {
      assert AllNewRows(plans)[i] == if i < |before| then before[i] else last[i - |before|];
    }
  }

  lemma {:induction false} OneNewRow(plans: seq<Plan>, plan: Plan) returns (j: nat)
    requires DistinctMessages(plans) && plan in plans && plan.kept == [] && plan.added == []
    ensures j < |AllNewRows(plans)| && AllNewRows(plans)[j] == NoMatchRow(plan)
    ensures forall i: nat | i < |AllNewRows(plans)| && i != j :: AllNewRows(plans)[i].message != plan.message
  {
    var before, last := plans[..|plans| - 1], plans[|plans| - 1];
    assert plans == before + [last];
    if plan == last {
      j := |AllNewRows(before)|;
      NoNewRows(before, plan.message);
      assert forall i: nat | i < j :: AllNewRows(before)[i] in AllNewRows(before);
    } else {
      assert plan in before;
      j := OneNewRow(before, plan);
      var i: nat :| i < |before| && before[i] == plan;
      assert last.message != plan.message;
      ElsewhereToo(plans, plan.message, j);
    }
  }

  lemma NotRemaining(rows: Rows, plans: seq<Plan>, plan: Plan, k: nat)
    requires DistinctMessages(plans) && plan in plans && plan.kept == []
    requires k in Remaining(rows, plans)
    ensures rows[k].message != plan.message
  {
    assert !Drops(plan, rows[k]);
  }

  lemma OnlyKey(rows: Rows, next: nat, plans: seq<Plan>, plan: Plan, j: nat, k: nat)
    requires KeysBelow(rows, next) && DistinctMessages(plans) && plan in plans && plan.kept == []
    requires j < |AllNewRows(plans)| && AllNewRows(plans)[j].message == plan.message
    requires forall i: nat | i < |AllNewRows(plans)| && i != j :: AllNewRows(plans)[i].message != plan.message
    ensures k in KeysOf(Rewritten(rows, next, plans), plan.message) <==> k == next + j
  {
    InsertedAt(Remaining(rows, plans), next, AllNewRows(plans), k);
    if k in Remaining(rows, plans) {
      NotRemaining(rows, plans, plan, k);
    }
  }

  lemma OneElement(keys: set<nat>, only: nat)
    requires forall k: nat :: k in keys <==> k == only
    ensures |keys| == 1
  {
    assert keys == {only};
  }

  /** The one no-match row is exactly one. */
  lemma ExactlyOneNoMatch(rows: Rows, next: nat, plans: seq<Plan>, plan: Plan)
    requires KeysBelow(rows, next) && DistinctMessages(plans) && plan in plans
    requires plan.kept == [] && plan.added == []
    ensures |KeysOf(Rewritten(rows, next, plans), plan.message)| == 1
  {
    var after, m := Rewritten(rows, next, plans), plan.message;
    var j := OneNewRow(plans, plan);
    var only := next + j;
    forall k: nat ensures k in KeysOf(after, m) <==> k == only {
      OnlyKey(rows, next, plans, plan, j, k);
    }
    OneElement(KeysOf(after, m), only);
  }

  // ---------------------------------------------------------------- one email's correction

  datatype Verdict = Verdict(positive: bool, missed: bool)

  /** What a review that ends with `requested` says about one rule. */
  function ReviewOf(id: int, current: set<int>, requested: set<int>): Verdict {
    Verdict(id in requested, (id in current) != (id in requested))
  }

  method SingleRecategorizeVerdicts(allPromptIds: seq<int>, current: set<int>, requested: set<int>)
    returns (verdicts: map<int, Verdict>)
    ensures forall id :: id in verdicts <==> id in allPromptIds && (id in current || id in requested)
    ensures forall id | id in verdicts ::
              verdicts[id] == ReviewOf(id, current, requested)
  {
    verdicts := map[];
    for i := 0 to |allPromptIds|
      invariant forall id :: id in verdicts <==> id in allPromptIds[..i] && (id in current || id in requested)
      invariant forall id | id in verdicts ::
                  verdicts[id] == ReviewOf(id, current, requested)
    {
      var id := allPromptIds[i];
      assert allPromptIds[..i + 1] == allPromptIds[..i] + [id];
      var was, now := id in current, id in requested;
      if !was && !now {
        continue;
      }
      verdicts := verdicts[id := Verdict(now, was != now)];
    }
    assert allPromptIds[..|allPromptIds|] == allPromptIds;
  }

  predicate Known(prompts: seq<Rule>, known: map<int, Rule>) {
    forall k | 0 <= k < |prompts| :: prompts[k].id in known && known[prompts[k].id] == prompts[k]
  }

  /** What was asked for that is new, and is a known rule. */
  ghost predicate IsSinglePlan(kept: seq<int>, added: seq<Rule>, current: set<int>, requested: set<int>,
                               known: map<int, Rule>) {
    && Elements(kept) == current * requested
    && Known(added, known)
    && Ids(added) == (requested - current) * known.Keys
  }

  /** The diff of the single-email handler; maps are walked in any order. */
  method SingleDiff(current: set<int>, requested: set<int>, known: map<int, Rule>)
    returns (addedIds: seq<int>, removedIds: seq<int>, kept: seq<int>, added: seq<Rule>)
    requires forall id | id in known :: known[id].id == id
    ensures Elements(addedIds) == requested - current && Elements(removedIds) == current - requested
    ensures IsSinglePlan(kept, added, current, requested, known)
  {
    addedIds, removedIds, kept, added := [], [], [], [];
    var order := AnyOrder(requested);
    for i := 0 to |order|
      invariant Elements(addedIds) == Elements(order[..i]) - current
    {
      ElementsStep(order, i);
      if order[i] !in current {
        ElementsPush(addedIds, order[i]);
        addedIds := addedIds + [order[i]];
      }
    }
    assert order[..|order|] == order;
    order := AnyOrder(current);
    for i := 0 to |order|
      invariant Elements(kept) == Elements(order[..i]) * requested
                && Elements(removedIds) == Elements(order[..i]) - requested
    {
      ElementsStep(order, i);
      if order[i] in requested {
        ElementsPush(kept, order[i]);
        kept := kept + [order[i]];
      } else {
        ElementsPush(removedIds, order[i]);
        removedIds := removedIds + [order[i]];
      }
    }
    assert order[..|order|] == order;
    added := KnownPrompts(addedIds, known);
  }

  lemma ElementsPush<T>(xs: seq<T>, x: T)
    ensures Elements(xs + [x]) == Elements(xs) + {x}
  {
  }

  lemma ElementsStep<T>(xs: seq<T>, i: nat)
    requires i < |xs|
    ensures Elements(xs[..i + 1]) == Elements(xs[..i]) + {xs[i]}
  {
    assert xs[..i + 1] == xs[..i] + [xs[i]];
  }

  /** A map or a set is walked in any order. */
  method AnyOrder<T(==)>(s: set<T>) returns (xs: seq<T>)
    ensures Elements(xs) == s && |xs| == |s|
  {
    xs := [];
    var todo := s;
    while todo != {}
      invariant todo <= s && Elements(xs) == s - todo && |xs| + |todo| == |s|
      decreases todo
    {
      var x :| x in todo;
      ElementsPush(xs, x);
      xs := xs + [x];
      todo := todo - {x};
    }
  }

  method KnownPrompts(ids: seq<int>, known: map<int, Rule>) returns (prompts: seq<Rule>)
    requires forall id | id in known :: known[id].id == id
    ensures Known(prompts, known)
    ensures Ids(prompts) == Elements(ids) * known.Keys
  {
    prompts := [];
    for i := 0 to |ids|
      invariant Known(prompts, known)
      invariant Ids(prompts) == Elements(ids[..i]) * known.Keys
    {
      ElementsStep(ids, i);
      if ids[i] in known {
        var p := known[ids[i]];
        assert p.id == ids[i];
        prompts := OnePrompt(prompts, p);
      }
    }
    assert ids[..|ids|] == ids;
  }

  method OnePrompt(prompts: seq<Rule>, p: Rule) returns (more: seq<Rule>)
    ensures more == prompts + [p] && Ids(more) == Ids(prompts) + {p.id}
  {
    more := prompts + [p];
    forall id ensures id in Ids(more) <==> id in Ids(prompts) || id == p.id {
      if id in Ids(prompts) {
        var q :| q in prompts && q.id == id;
        assert q in more;
      }
      assert p in more;
    }
  }

  /** After the single-email correction the message matches exactly what was asked for, except
      rules that are neither known nor already there; and what the verdicts record for each known
      rule is what it matches now and whether that is a change. */
  lemma SingleCorrection(rows: Rows, next: nat, plan: Plan, requested: set<int>, known: map<int, Rule>,
                         verdicts: map<int, Verdict>, id: int)
    requires KeysBelow(rows, next)
    requires IsSinglePlan(plan.kept, plan.added, Current(rows, plan.message), requested, known)
    requires forall i | i in verdicts :: verdicts[i] == ReviewOf(i, Current(rows, plan.message), requested)
    ensures var before, after := Current(rows, plan.message), Current(Rewritten(rows, next, [plan]), plan.message);
            && after == requested * (before + known.Keys)
            && (id in verdicts && id in known ==> (verdicts[id].positive <==> id in after)
                                                  && (verdicts[id].missed <==> (id in before) != (id in after)))
  {
    assert plan in [plan];
    ReadBack(rows, next, [plan], plan);
  }

  // ---------------------------------------------------------------- bulk correction

  ghost predicate IsBulkPlan(kept: seq<int>, added: seq<Rule>, current: set<int>, apply: seq<int>, remove: seq<int>,
                             known: map<int, Rule>) {
    && Elements(kept) == current - Elements(remove)
    && Known(added, known)
    && Ids(added) == (Elements(apply) - Elements(remove) - current) * known.Keys
  }

  function BulkReview(id: int, current: set<int>, apply: seq<int>, remove: seq<int>): Verdict {
    Verdict(id in apply, id !in current || id in remove)
  }

  /** The table of the bulk action: only rules it names, and names on one side only. */
  ghost predicate BulkVerdicts(verdicts: map<int, Verdict>, current: set<int>, apply: seq<int>, remove: seq<int>) {
    && (forall id :: id in verdicts <==>
          (id in apply && id !in remove) || (id in remove && id !in apply && id in current))
    && (forall id | id in verdicts :: verdicts[id] == BulkReview(id, current, apply, remove))
  }

  function Applied(id: int, current: set<int>): Verdict {
    Verdict(true, id !in current)
  }

  method BulkVerdictsAndPlan(current: set<int>, apply: seq<int>, remove: seq<int>, known: map<int, Rule>)
    returns (verdicts: map<int, Verdict>, kept: seq<int>, added: seq<Rule>)
    requires forall id | id in known :: known[id].id == id
    ensures BulkVerdicts(verdicts, current, apply, remove)
    ensures IsBulkPlan(kept, added, current, apply, remove, known)
  {
    verdicts, kept, added := map[], [], [];
    for i := 0 to |apply|
      invariant forall id :: id in verdicts <==> id in apply[..i] && id !in remove
      invariant forall id | id in verdicts :: verdicts[id] == Applied(id, current)
      invariant Known(added, known)
      invariant Ids(added) == (Elements(apply[..i]) - Elements(remove) - current) * known.Keys
    {
      var id := apply[i];
      ElementsStep(apply, i);
      assert apply[..i + 1] == apply[..i] + [id];
      if id in remove {
        continue;
      }
      if id in current {
        verdicts := verdicts[id := Verdict(true, false)];
      } else {
        verdicts := verdicts[id := Verdict(true, true)];
        if id in known {
          added := OnePrompt(added, known[id]);
        }
      }
    }
    assert apply[..|apply|] == apply;
    verdicts := RemoveVerdicts(verdicts, current, apply, remove);
    var order := AnyOrder(current);
    for i := 0 to |order|
      invariant Elements(kept) == Elements(order[..i]) - Elements(remove)
    {
      ElementsStep(order, i);
      if order[i] !in remove {
        ElementsPush(kept, order[i]);
        kept := kept + [order[i]];
      }
    }
    assert order[..|order|] == order;
  }

  method RemoveVerdicts(applied: map<int, Verdict>, current: set<int>, apply: seq<int>, remove: seq<int>)
    returns (verdicts: map<int, Verdict>)
    requires forall id :: id in applied <==> id in apply && id !in remove
    requires forall id | id in applied :: applied[id] == Applied(id, current)
    ensures BulkVerdicts(verdicts, current, apply, remove)
  {
    verdicts := applied;
    for i := 0 to |remove|
      invariant forall id :: id in verdicts <==> id in applied || (id in remove[..i] && id !in apply && id in current)
      invariant forall id | id in verdicts ::
                verdicts[id] == if id in applied then applied[id] else Verdict(false, true)
    {
      var id := remove[i];
      assert remove[..i + 1] == remove[..i] + [id];
      if id in apply || id !in current {
        continue;
      }
      verdicts := verdicts[id := Verdict(false, true)];
    }
    assert remove[..|remove|] == remove;
  }

  /** After a bulk correction each planned message matches what it did without the removed rules,
      and the applied known ones; a verdict on a known rule says what the message matches now, and
      is a miss exactly when that is a change. */
  lemma BulkCorrection(rows: Rows, next: nat, plans: seq<Plan>, plan: Plan, apply: seq<int>, remove: seq<int>,
                       known: map<int, Rule>, verdicts: map<int, Verdict>, id: int)
    requires KeysBelow(rows, next) && DistinctMessages(plans) && plan in plans
    requires IsBulkPlan(plan.kept, plan.added, Current(rows, plan.message), apply, remove, known)
    requires BulkVerdicts(verdicts, Current(rows, plan.message), apply, remove)
    ensures var before, after := Current(rows, plan.message), Current(Rewritten(rows, next, plans), plan.message);
            && after == (before - Elements(remove)) + ((Elements(apply) - Elements(remove)) * known.Keys)
            && (id in verdicts && id in known ==> (verdicts[id].positive <==> id in after)
                                                  && (verdicts[id].missed <==> (id in before) != (id in after)))
  {
    ReadBack(rows, next, plans, plan);
  }

  // ---------------------------------------------------------------- the bulk form

  datatype Selection = Selection(account: int, message: string)

  /** `parse` splits a form value at its first colon; nothing for a malformed one. The selections
      are the well-formed values, each once, so no message is planned twice. */
  method ParseBulkSelections(values: seq<string>, parse: string -> Option<Selection>) returns (out: seq<Selection>)
    ensures forall i, j | 0 <= i < j < |out| :: out[i] != out[j]
    ensures forall s :: s in out <==> exists v :: v in values && parse(v) == Some(s)
  {
    out := [];
    for i := 0 to |values|
      invariant forall i, j | 0 <= i < j < |out| :: out[i] != out[j]
      invariant forall s :: s in out <==> exists v :: v in values[..i] && parse(v) == Some(s)
    {
      assert values[..i + 1] == values[..i] + [values[i]];
      var s := parse(values[i]);
      if s.Some? && s.value !in out {
        out := out + [s.value];
      }
    }
    assert values[..|values|] == values;
  }

  datatype MessageState = MessageState(subject: string, sender: string, current: set<int>)

  /** The state of many messages from one walk over the rows, in any order. */
  method HistoryStateForMessages(rows: Rows, ids: seq<string>) returns (states: map<string, MessageState>)
    ensures forall m :: m in states <==> m in ids && KeysOf(rows, m) != {}
    ensures forall m | m in states :: states[m].current == Current(rows, m)
    ensures forall m | m in states :: exists k ::
            k in KeysOf(rows, m) && rows[k].subject == states[m].subject && rows[k].sender == states[m].sender
  {
    states := map[];
    var todo := rows.Keys;
    while todo != {}
      invariant todo <= rows.Keys
      invariant forall m :: m in states <==> m in ids && KeysOf(rows, m) - todo != {}
      invariant forall m | m in states ::
                  states[m].current
                  == set k | k in KeysOf(rows, m) && k !in todo && rows[k].prompt.Some? :: rows[k].prompt.value
      invariant forall m | m in states ::
                  exists k ::
                      k in KeysOf(rows, m) && rows[k].subject == states[m].subject && rows[k].sender == states[m].sender
      decreases todo
    {
      var k :| k in todo;
      var row := rows[k];
      if row.message in ids {
        var st := if row.message in states then states[row.message] else MessageState(row.subject, row.sender, {});
        if row.prompt.Some? {
          st := st.(current := st.current + {row.prompt.value});
        }
        states := states[row.message := st];
      }
      todo := todo - {k};
    }
  }
}

/**
 What the matching rules do to one email (processor/processor.go, `ModifyForPrompt`,
 `ReverseModifyForPrompt`, `processEmail`).

 A rule's label changes can be undone by swapping them, exactly when they really changed
 something. Every matching rule is reported, but only those up to the first that stops
 processing act, and an email whose rules all stay silent gets one "no match" row. Rules whose
 labels are ordinary ones never conflict, so the bulk order of their changes does not matter.
 */
module EmailRules {
  import opened Wrappers
  import opened LabelBatches

  const INBOX := "INBOX"
  const UNREAD := "UNREAD"
  const SPAM := "SPAM"

  datatype Prompt = Prompt(id: int, name: string, labelName: string,
                           spam: bool, trash: bool, archive: bool, markRead: bool, stopProcessing: bool)

  function AddLabels(p: Prompt, labelId: string): seq<string> {
    (if p.labelName != "" && labelId != "" then [labelId] else []) + (if p.spam then [SPAM] else [])
  }

  function RemoveLabels(p: Prompt): seq<string> {
    (if p.spam || (!p.trash && p.archive) then [INBOX] else []) + (if p.markRead then [UNREAD] else [])
  }

  predicate Trashes(p: Prompt) {
    p.trash && !p.spam
  }

  function ActionWords(p: Prompt): seq<string> {
    (if p.spam then ["sent to spam"] else if p.trash then ["trashed"] else if p.archive then ["archived"] else [])
    + (if p.markRead then ["marked as read"] else [])
  }

  lemma WordsSay(p: Prompt)
    ensures forall w :: w in ActionWords(p) <==>
              || (w == "sent to spam" && p.spam) || (w == "trashed" && p.trash && !p.spam)
              || (w == "archived" && p.archive && !p.trash && !p.spam) || (w == "marked as read" && p.markRead)
  {
  }

  method ModifyForPrompt(p: Prompt, labelId: string) returns (mod: Modify, trash: bool, actions: seq<string>)
    ensures mod == Modify([], AddLabels(p, labelId), RemoveLabels(p))
    ensures trash == Trashes(p)
    ensures actions == ActionWords(p)
    ensures forall l :: l in mod.add <==>
              (l == labelId && labelId != "" && p.labelName != "") || (l == "SPAM" && p.spam)
    ensures forall l :: l in mod.remove <==>
              (l == "INBOX" && (p.spam || (p.archive && !p.trash))) || (l == "UNREAD" && p.markRead)
    ensures trash <==> p.trash && !p.spam
    ensures forall w :: w in actions <==>
              || (w == "sent to spam" && p.spam) || (w == "trashed" && p.trash && !p.spam)
              || (w == "archived" && p.archive && !p.trash && !p.spam) || (w == "marked as read" && p.markRead)
  {
    WordsSay(p);
    mod, trash, actions := Modify([], [], []), false, [];
    if p.labelName != "" && labelId != "" {
      mod := mod.(add := mod.add + [labelId]);
    }
    if p.spam {
      mod := mod.(add := mod.add + [SPAM], remove := mod.remove + [INBOX]);
      actions := actions + ["sent to spam"];
    } else if p.trash {
      trash := true;
      actions := actions + ["trashed"];
    } else if p.archive {
      mod := mod.(remove := mod.remove + [INBOX]);
      actions := actions + ["archived"];
    }
    if p.markRead {
      mod := mod.(remove := mod.remove + [UNREAD]);
      actions := actions + ["marked as read"];
    }
  }

  method ReverseModifyForPrompt(p: Prompt, labelId: string) returns (mod: Modify, untrash: bool)
    ensures mod == Modify([], RemoveLabels(p), AddLabels(p, labelId))
    ensures untrash == Trashes(p)
  {
    var forward, trash, _ := ModifyForPrompt(p, labelId);
    mod := Modify([], forward.remove, forward.add);
    untrash := trash;
  }

  function Forward(p: Prompt, labelId: string, m: string): Modify {
    Modify([m], AddLabels(p, labelId), RemoveLabels(p))
  }

  function Reverse(p: Prompt, labelId: string, m: string): Modify {
    Modify([m], RemoveLabels(p), AddLabels(p, labelId))
  }

  /** Applying a rule's changes and then undoing them restores a label exactly when the rule does
      not touch it, or adds it where it was missing, or takes it away where it was present. */
  lemma UndoExactly(p: Prompt, labelId: string, m: string, l: string, has: bool)
    ensures Outcome([Forward(p, labelId, m), Reverse(p, labelId, m)], has, m, l) == has
            <==> if l in RemoveLabels(p) then has else l in AddLabels(p, labelId) ==> !has
  {
    var forward, back := Forward(p, labelId, m), Reverse(p, labelId, m);
    assert [forward, back][..1] == [forward] && [forward][..0] == [];
    assert m in forward.ids && m in back.ids;
    assert Outcome([], has, m, l) == has;
    assert Outcome([forward], has, m, l) == (Adds(forward, m, l) || (has && !Removes(forward, m, l)));
  }

  predicate FromRule(mod: Modify, p: Prompt, labelId: string) {
    mod.add == AddLabels(p, labelId) && mod.remove == RemoveLabels(p)
  }

  ghost predicate FromRules(mods: seq<Modify>) {
    forall mod | mod in mods :: exists p, labelId :: FromRule(mod, p, labelId) && labelId != INBOX && labelId != UNREAD
  }

  /** Rules add their own label and SPAM, and take away INBOX and UNREAD: while no rule's own
      label is one of those two, a pass never both adds and removes a label. */
  lemma RulesNeverConflict(mods: seq<Modify>, m: string, l: string)
    requires FromRules(mods)
    ensures !Conflict(mods, m, l)
  {
    forall mod | mod in mods
      ensures Adds(mod, m, l) ==> l != INBOX && l != UNREAD
      ensures Removes(mod, m, l) ==> l == INBOX || l == UNREAD
    {
      var p, labelId :| FromRule(mod, p, labelId) && labelId != INBOX && labelId != UNREAD;
    }
  }

  /** So the requests for such changes give every email the labels the changes give it in turn, in
      whatever order the groups go out. */
  lemma ModsAsSequence(mods: seq<Modify>, keys: seq<Key>, has: bool, m: string, l: string)
    requires FromRules(mods) && forall mod | mod in mods :: PlainModify(mod)
    requires IsOrder(keys, Grouped(mods))
    ensures Outcome(Requests(Grouped(mods), keys), has, m, l) == Outcome(mods, has, m, l)
  {
    RulesNeverConflict(mods, m, l);
    BatchAsSequence(mods, keys, has, m, l);
  }

  // ---------------------------------------------------------------- one email

  datatype HistoryRow = HistoryRow(promptId: Option<int>, promptName: Option<string>, labelName: Option<string>,
                                   actions: seq<string>)

  datatype Job = Job(messageId: string, release: bool, history: seq<HistoryRow>)

  function Matching(prompts: seq<Prompt>, matches: set<int>): seq<Prompt> {
    if prompts == [] then []
    else
      var before, p := Matching(prompts[..|prompts| - 1], matches), prompts[|prompts| - 1];
      if p.id in matches then before + [p] else before
  }

  lemma {:induction false} NamesAre(matching: seq<Prompt>)
    ensures |Names(matching)| == |matching|
    ensures forall k | 0 <= k < |matching| :: Names(matching)[k] == matching[k].name
  {
    if matching != [] {
      NamesAre(matching[..|matching| - 1]);
    }
  }

  lemma {:induction false} MatchingUpTo(prompts: seq<Prompt>, matches: set<int>, n: nat) returns (places: seq<nat>)
    requires n <= |prompts|
    ensures |places| == |Matching(prompts[..n], matches)|
    ensures forall k | 0 <= k < |places| ::
              && places[k] < n && prompts[places[k]].id in matches
              && Matching(prompts[..n], matches)[k] == prompts[places[k]]
    ensures forall k, l | 0 <= k < l < |places| :: places[k] < places[l]
    ensures forall i: nat | i < n && prompts[i].id in matches :: i in places
  {
    places := [];
    if n > 0 {
      places := MatchingUpTo(prompts, matches, n - 1);
      assert prompts[..n][..n - 1] == prompts[..n - 1];
      if prompts[n - 1].id in matches {
        places := places + [n - 1];
      }
    }
  }

  /** The matching rules, each as often as it is listed and in that order. */
  lemma MatchingAre(prompts: seq<Prompt>, matches: set<int>) returns (places: seq<nat>)
    ensures |places| == |Matching(prompts, matches)|
    ensures forall k | 0 <= k < |places| ::
              && places[k] < |prompts| && prompts[places[k]].id in matches
              && Matching(prompts, matches)[k] == prompts[places[k]]
    ensures forall k, l | 0 <= k < l < |places| :: places[k] < places[l]
    ensures forall i: nat | i < |prompts| && prompts[i].id in matches :: i in places
  {
    places := MatchingUpTo(prompts, matches, |prompts|);
    assert prompts[..|prompts|] == prompts;
  }

  /** The matching rules up to the first that stops. */
  function Acting(matching: seq<Prompt>): seq<Prompt> {
    if matching == [] then []
    else
      var before := Acting(matching[..|matching| - 1]);
      if Stops(before) then before else before + [matching[|matching| - 1]]
  }

  predicate Stops(matching: seq<Prompt>) {
    exists p | p in matching :: p.stopProcessing
  }

  /** The acting rules are the matching ones up to and including the first that stops, and all of
      them when none does. */
  lemma {:induction false} ActingUpToStop(matching: seq<Prompt>)
    ensures Acting(matching) <= matching
    ensures Acting(matching) != matching ==> Stops(Acting(matching))
    ensures matching == [] <==> Acting(matching) == []
    ensures Acting(matching) != [] ==> !Stops(Acting(matching)[..|Acting(matching)| - 1])
  {
    if matching != [] {
      var before, p := matching[..|matching| - 1], matching[|matching| - 1];
      ActingUpToStop(before);
      assert matching == before + [p];
      if !Stops(Acting(before)) {
        assert Acting(before) == before && Acting(matching) == matching;
      }
    }
  }

  function LabelId(labels: map<string, string>, name: string): string {
    if name in labels then labels[name] else ""
  }

  function RowFor(p: Prompt): HistoryRow {
    HistoryRow(Some(p.id), Some(p.name), if p.labelName == "" then None else Some(p.labelName),
               (if p.labelName != "" then ["labeled → " + p.labelName] else [])
               + ActionWords(p) + (if p.stopProcessing then ["stopped further rules"] else []))
  }

  function RowsFor(acting: seq<Prompt>): seq<HistoryRow> {
    if acting == [] then [] else RowsFor(acting[..|acting| - 1]) + [RowFor(acting[|acting| - 1])]
  }

  function ModsFor(acting: seq<Prompt>, labels: map<string, string>, m: string): seq<Modify> {
    if acting == [] then []
    else
      var p := acting[|acting| - 1];
      var before, mod := ModsFor(acting[..|acting| - 1], labels, m), Forward(p, LabelId(labels, p.labelName), m);
      if mod.add == [] && mod.remove == [] then before else before + [mod]
  }

  function TrashFor(acting: seq<Prompt>, m: string): seq<string> {
    if acting == [] then []
    else TrashFor(acting[..|acting| - 1], m) + (if Trashes(acting[|acting| - 1]) then [m] else [])
  }

  const NO_MATCH := HistoryRow(None, None, None, ["no match"])

  function Names(matching: seq<Prompt>): seq<string> {
    if matching == [] then [] else Names(matching[..|matching| - 1]) + [matching[|matching| - 1].name]
  }

  method ApplyRule(p: Prompt, labelId: string, m: string) returns (mod: Modify, trashed: bool, row: HistoryRow)
    ensures mod == Forward(p, labelId, m) && trashed == Trashes(p) && row == RowFor(p)
  {
    var actions: seq<string> := [];
    if p.labelName != "" {
      actions := actions + ["labeled → " + p.labelName];
    }
    var words;
    mod, trashed, words := ModifyForPrompt(p, labelId);
    mod := mod.(ids := [m]);
    actions := actions + words;
    if p.stopProcessing {
      actions := actions + ["stopped further rules"];
    }
    assert actions == RowFor(p).actions;
    row := HistoryRow(Some(p.id), Some(p.name), if p.labelName == "" then None else Some(p.labelName), actions);
  }

  /** `classified` is the set of matching rule ids, or nothing when the model call failed: then
      the claim is released and nothing else happens to the email. */
  method ProcessEmail(prompts: seq<Prompt>, labels: map<string, string>, m: string, classified: Option<set<int>>)
    returns (mods: seq<Modify>, trash: seq<string>, matched: seq<string>, job: Job)
    ensures mods == ModsOf(prompts, labels, m, classified)
    ensures classified.None? ==> mods == [] && trash == [] && matched == [] && job == Job(m, true, [])
    ensures classified.Some? ==>
              var matching := Matching(prompts, classified.value);
              var acting := Acting(matching);
              && matched == Names(matching)
              && mods == ModsFor(acting, labels, m) && trash == TrashFor(acting, m)
              && job == Job(m, false, if matching == [] then [NO_MATCH] else RowsFor(acting))
              && (matching == [] <==> acting == [])
  {
    mods, trash, matched := [], [], [];
    if classified.None? {
      job := Job(m, true, []);
      return;
    }
    var history: seq<HistoryRow> := [];
    var stop := false;
    ghost var acting: seq<Prompt> := [];
    for i := 0 to |prompts|
      invariant matched == Names(Matching(prompts[..i], classified.value))
      invariant acting == Acting(Matching(prompts[..i], classified.value))
      invariant stop <==> Stops(acting)
      invariant history == RowsFor(acting)
      invariant mods == ModsFor(acting, labels, m) && trash == TrashFor(acting, m)
    {
      var p := prompts[i];
      MatchOne(prompts, i, classified.value);
      if p.id !in classified.value {
        continue;
      }
      matched := matched + [p.name];
      if stop {
        continue;
      }
      var mod, trashed, row := ApplyRule(p, LabelId(labels, p.labelName), m);
      if trashed {
        trash := trash + [m];
      }
      if p.stopProcessing {
        stop := true;
      }
      if |mod.add| > 0 || |mod.remove| > 0 {
        mods := mods + [mod];
      }
      history := history + [row];
      ActOne(acting, p, labels, m);
      acting := acting + [p];
    }
    assert prompts[..|prompts|] == prompts;
    ActingUpToStop(Matching(prompts, classified.value));
    if |history| == 0 {
      history := history + [NO_MATCH];
    }
    job := Job(m, false, history);
  }

  lemma MatchOne(prompts: seq<Prompt>, i: nat, matches: set<int>)
    requires i < |prompts|
    ensures var before, after := Matching(prompts[..i], matches), Matching(prompts[..i + 1], matches);
            if prompts[i].id !in matches then after == before
            else Names(after) == Names(before) + [prompts[i].name] &&
                 Acting(after) == if Stops(Acting(before)) then Acting(before) else Acting(before) + [prompts[i]]
  {
    assert prompts[..i + 1][..i] == prompts[..i];
    var before := Matching(prompts[..i], matches);
    assert (before + [prompts[i]])[..|before|] == before;
  }

  lemma ActOne(acting: seq<Prompt>, p: Prompt, labels: map<string, string>, m: string)
    ensures RowsFor(acting + [p]) == RowsFor(acting) + [RowFor(p)]
    ensures TrashFor(acting + [p], m) == TrashFor(acting, m) + (if Trashes(p) then [m] else [])
    ensures var mod := Forward(p, LabelId(labels, p.labelName), m);
            ModsFor(acting + [p], labels, m)
            == if mod.add == [] && mod.remove == [] then ModsFor(acting, labels, m)
               else ModsFor(acting, labels, m) + [mod]
    ensures Stops(acting + [p]) <==> Stops(acting) || p.stopProcessing
  {
    assert (acting + [p])[..|acting|] == acting;
  }

  /** The row names the rule and its label, and lists what it did. */
  ghost predicate SaysOf(row: HistoryRow, p: Prompt) {
    && row.promptName == Some(p.name) && row.labelName == (if p.labelName == "" then None else Some(p.labelName))
    && forall w :: w in row.actions <==>
         || (w == "labeled → " + p.labelName && p.labelName != "")
         || (w == "sent to spam" && p.spam) || (w == "trashed" && p.trash && !p.spam)
         || (w == "archived" && p.archive && !p.trash && !p.spam) || (w == "marked as read" && p.markRead)
         || (w == "stopped further rules" && p.stopProcessing)
  }

  lemma RowSays(p: Prompt)
    ensures SaysOf(RowFor(p), p)
  {
    WordsSay(p);
  }

  /** One row for each acting rule, or the one row without a rule: never none, never both. */
  lemma {:induction false} RowPerRule(acting: seq<Prompt>)
    ensures |RowsFor(acting)| == |acting|
    ensures forall k | 0 <= k < |acting| :: RowsFor(acting)[k].promptId == Some(acting[k].id)
    ensures NO_MATCH !in RowsFor(acting)
    ensures forall k | 0 <= k < |acting| :: SaysOf(RowsFor(acting)[k], acting[k])
  {
    if acting != [] {
      RowPerRule(acting[..|acting| - 1]);
      RowSays(acting[|acting| - 1]);
    }
  }

  /** The rule's own label is none of those that rules set or clear by their other settings. */
  predicate OwnLabel(labelId: string) {
    labelId != "INBOX" && labelId != "UNREAD" && labelId != "SPAM"
  }

  /** One rule's change to one label of its message. */
  lemma RuleEffect(p: Prompt, labelId: string, m: string, l: string, has: bool)
    requires OwnLabel(labelId)
    ensures var after := Adds(Forward(p, labelId, m), m, l) || (has && !Removes(Forward(p, labelId, m), m, l));
            after == if l == "INBOX" then has && !p.spam && !(p.archive && !p.trash)
                     else if l == "UNREAD" then has && !p.markRead
                     else if l == "SPAM" then has || p.spam
                     else has || (l == labelId && l != "" && p.labelName != "")
  {
  }

  lemma OutcomeOneMore(mods: seq<Modify>, mod: Modify, has: bool, m: string, l: string)
    ensures Outcome(mods + [mod], has, m, l)
            == (Adds(mod, m, l) || (Outcome(mods, has, m, l) && !Removes(mod, m, l)))
  {
    assert (mods + [mod])[..|mods|] == mods;
  }

  ghost predicate SomeRule(acting: seq<Prompt>, does: Prompt -> bool) {
    exists p | p in acting :: does(p)
  }

  lemma SomeRuleOneMore(acting: seq<Prompt>, p: Prompt, does: Prompt -> bool)
    ensures SomeRule(acting + [p], does) <==> SomeRule(acting, does) || does(p)
  {
    if does(p) {
      assert p in acting + [p];
    }
    if q :| q in acting && does(q) {
      assert q in acting + [p];
    }
  }

  function LeavesInbox(): Prompt -> bool { (p: Prompt) => p.spam || (p.archive && !p.trash) }
  function IsRead(): Prompt -> bool { (p: Prompt) => p.markRead }
  function IsSpam(): Prompt -> bool { (p: Prompt) => p.spam }
  function IsTrashed(): Prompt -> bool { (p: Prompt) => p.trash && !p.spam }
  function IsLabeled(labels: map<string, string>, l: string): Prompt -> bool {
    (p: Prompt) => p.labelName != "" && p.labelName in labels && labels[p.labelName] == l && l != ""
  }

  /** The email after its acting rules, label by label, and when it is trashed. */
  lemma {:induction false} EmailAfter(acting: seq<Prompt>, labels: map<string, string>, m: string, l: string, has: bool)
    requires forall name | name in labels :: OwnLabel(labels[name])
    ensures Outcome(ModsFor(acting, labels, m), has, m, l)
            == if l == "INBOX" then has && !SomeRule(acting, LeavesInbox())
               else if l == "UNREAD" then has && !SomeRule(acting, IsRead())
               else if l == "SPAM" then has || SomeRule(acting, IsSpam())
               else has || SomeRule(acting, IsLabeled(labels, l))
    ensures m in TrashFor(acting, m) <==> SomeRule(acting, IsTrashed())
  {
    if acting != [] {
      var before, p := acting[..|acting| - 1], acting[|acting| - 1];
      var labelId := LabelId(labels, p.labelName);
      assert acting == before + [p];
      EmailAfter(before, labels, m, l, has);
      RuleEffect(p, labelId, m, l, Outcome(ModsFor(before, labels, m), has, m, l));
      OutcomeOneMore(ModsFor(before, labels, m), Forward(p, labelId, m), has, m, l);
      SomeRuleOneMore(before, p, IsTrashed());
      SomeRuleOneMore(before, p, if l == "INBOX" then LeavesInbox() else if l == "UNREAD" then IsRead()
                                 else if l == "SPAM" then IsSpam() else IsLabeled(labels, l));
    }
  }

  // ---------------------------------------------------------------- a whole pass

  /** What one email adds to the changes of a pass. */
  function ModsOf(prompts: seq<Prompt>, labels: map<string, string>, m: string,
                  classified: Option<set<int>>): seq<Modify> {
    if classified.None? then [] else ModsFor(Acting(Matching(prompts, classified.value)), labels, m)
  }

  /** The emails of a pass, in the order their changes were collected, and what the model said. */
  function PassMods(prompts: seq<Prompt>, labels: map<string, string>,
                    emails: seq<(string, Option<set<int>>)>): seq<Modify> {
    if emails == [] then []
    else
      var (m, classified) := emails[|emails| - 1];
      PassMods(prompts, labels, emails[..|emails| - 1]) + ModsOf(prompts, labels, m, classified)
  }

  predicate Ordinary(labelId: string) {
    labelId != INBOX && labelId != UNREAD && ',' !in labelId
  }

  lemma ForwardOrdinary(p: Prompt, labelId: string, m: string)
    requires Ordinary(labelId)
    ensures FromRules([Forward(p, labelId, m)]) && PlainModify(Forward(p, labelId, m))
  {
    assert FromRule(Forward(p, labelId, m), p, labelId);
  }

  lemma {:induction false} ModsForOrdinary(acting: seq<Prompt>, labels: map<string, string>, m: string)
    requires forall name | name in labels :: Ordinary(labels[name])
    ensures FromRules(ModsFor(acting, labels, m))
    ensures forall mod | mod in ModsFor(acting, labels, m) :: PlainModify(mod)
  {
    if acting != [] {
      var p := acting[|acting| - 1];
      var labelId := LabelId(labels, p.labelName);
      ModsForOrdinary(acting[..|acting| - 1], labels, m);
      ForwardOrdinary(p, labelId, m);
    }
  }

  /** While no rule's own label is INBOX or UNREAD or holds a comma, all that a pass collects is
      of the kind the bulk requests are faithful to. */
  lemma {:induction false} PassFromRules(prompts: seq<Prompt>, labels: map<string, string>,
                                         emails: seq<(string, Option<set<int>>)>)
    requires forall name | name in labels :: Ordinary(labels[name])
    ensures FromRules(PassMods(prompts, labels, emails))
    ensures forall mod | mod in PassMods(prompts, labels, emails) :: PlainModify(mod)
  {
    if emails != [] {
      var (m, classified) := emails[|emails| - 1];
      PassFromRules(prompts, labels, emails[..|emails| - 1]);
      if classified.Some? {
        ModsForOrdinary(Acting(Matching(prompts, classified.value)), labels, m);
      }
    }
  }

  /** So the requests of a whole pass, its groups going out in any order, give every email the
      labels its acting rules gave it in turn. */
  lemma PassAsSequence(prompts: seq<Prompt>, labels: map<string, string>, emails: seq<(string, Option<set<int>>)>,
                       keys: seq<Key>, has: bool, m: string, l: string)
    requires forall name | name in labels :: Ordinary(labels[name])
    requires IsOrder(keys, Grouped(PassMods(prompts, labels, emails)))
    ensures var mods := PassMods(prompts, labels, emails);
            Outcome(Requests(Grouped(mods), keys), has, m, l) == Outcome(mods, has, m, l)
  {
    PassFromRules(prompts, labels, emails);
    ModsAsSequence(PassMods(prompts, labels, emails), keys, has, m, l);
  }
}

/**
  reconcileCoreDNS and reconcileCoreDNSTemplate: a rewrite rule is inserted below
  every "ready" line of the Corefile, and CoreDNS is restarted when it changed.
*/
module CoreDns {
  import opened Wrappers
  import opened Text

  const MARKER: string := ".gkegw.cluster.local"
  const RULE_HEAD: string := "    rewrite name suffix "
  const RULE_TAIL: string := " .svc.cluster.local"
  const RULE: string := RULE_HEAD + MARKER + RULE_TAIL

  predicate IsReadyLine(line: string) { Trim(line, GoSpace) == "ready" }

  function InjectLines(lines: seq<string>): (r: seq<string>)
    ensures |r| >= |lines|
  {
    if lines == [] then []
    else
      var last := lines[|lines| - 1];
      InjectLines(lines[..|lines| - 1]) + [last] + (if IsReadyLine(last) then [RULE] else [])
  }

  function Inject(text: string): string {
    Join(InjectLines(Split(text, '\n')), '\n')
  }

  /** The text after a reconcile. */
  function Patch(text: string): string {
    if text != "" && !Contains(text, MARKER) then Inject(text) else text
  }

  predicate HasReadyLine(text: string) {
    exists i :: 0 <= i < |Split(text, '\n')| && IsReadyLine(Split(text, '\n')[i])
  }

  /** isCoreDNSGatewayRuleActive. */
  predicate RuleActive(text: string) { Contains(text, MARKER) }

  /** The loop both functions share; `changed` is the comparison that guards the update. */
  method InjectRule(text: string) returns (patched: string, changed: bool)
    ensures patched == Patch(text)
    ensures changed == (Patch(text) != text)
  {
    if text == "" || Contains(text, MARKER) {
      return text, false;
    }
    hide Split, IsReadyLine, Join;
    var lines := Split(text, '\n');
    var newLines: seq<string> := [];
    for i := 0 to |lines|
      invariant newLines == InjectLines(lines[..i])
    {
      assert lines[..i + 1][..i] == lines[..i];
      newLines := newLines + [lines[i]];
      if IsReadyLine(lines[i]) {
        newLines := newLines + [RULE];
      }
    }
    assert lines[..|lines|] == lines;
    patched := Join(newLines, '\n');
    changed := patched != text;
  }

  // ---------------------------------------------------------------- lines of the patched text

  lemma MarkerInRule()
    ensures Contains(RULE, MARKER) && '\n' !in RULE
  {
    hide Contains, RULE_HEAD, RULE_TAIL, MARKER;
    WholeContains(MARKER);
    ContainsWithin(RULE_HEAD, MARKER, RULE_TAIL, MARKER);
    OneLineEach();
  }

  lemma OneLineEach()
    ensures '\n' !in RULE_HEAD && '\n' !in MARKER && '\n' !in RULE_TAIL
  {
  }

  lemma WholeContains(s: string)
    ensures Contains(s, s)
  {
  }

  lemma InjectLinesStep(lines: seq<string>)
    requires lines != []
    ensures InjectLines(lines)
         == InjectLines(lines[..|lines| - 1]) + [lines[|lines| - 1]]
            + (if IsReadyLine(lines[|lines| - 1]) then [RULE] else [])
    ensures InjectLines([]) == []
  {
    hide IsReadyLine;
  }

  lemma {:induction false} InjectLinesElements(lines: seq<string>)
    ensures forall x :: x in InjectLines(lines) ==> x in lines || x == RULE
    ensures |InjectLines(lines)| == |lines| <==> forall i :: 0 <= i < |lines| ==> !IsReadyLine(lines[i])
    ensures |InjectLines(lines)| == |lines| ==> InjectLines(lines) == lines
    ensures |InjectLines(lines)| > |lines| ==> RULE in InjectLines(lines)
  {
    hide *;
    InjectLinesStep(lines + [RULE]);
    if lines != [] {
      var front, last := lines[..|lines| - 1], lines[|lines| - 1];
      InjectLinesElements(front);
      InjectLinesStep(lines);
      assert lines == front + [last];
      assert forall i :: 0 <= i < |front| ==> lines[i] == front[i];
    }
  }

  lemma LinesOfInject(text: string)
    ensures Split(Inject(text), '\n') == InjectLines(Split(text, '\n'))
  {
    hide Split, InjectLines, Join;
    var lines := Split(text, '\n');
    InjectLinesElements(lines);
    MarkerInRule();
    forall p | p in InjectLines(lines) ensures '\n' !in p {
      if p in lines {
        var i :| 0 <= i < |lines| && lines[i] == p;
        SplitPieceHasNoSep(text, '\n', i);
      }
    }
    SplitJoin(InjectLines(lines), '\n');
  }

  /** A patch changes the text exactly when the rule is missing and some line is "ready". */
  lemma PatchChangesExactly(text: string)
    ensures Patch(text) != text <==> !RuleActive(text) && HasReadyLine(text)
  {
    hide Split, InjectLines, Join, IsReadyLine, Contains;
    var lines := Split(text, '\n');
    if text == "" {
      EmptyHasNoReadyLine();
    } else if !Contains(text, MARKER) {
      LinesOfInject(text);
      InjectLinesElements(lines);
      JoinSplit(text, '\n');
    }
  }

  lemma EmptyHasNoReadyLine()
    ensures !HasReadyLine("")
  {
    assert Split("", '\n') == [[]];
    assert Trim("", GoSpace) == "";
  }

  /** After a changing patch the rule is active, so the Network reconciler's check then holds. */
  lemma PatchActivates(text: string)
    ensures RuleActive(Patch(text)) <==> RuleActive(text) || HasReadyLine(text)
  {
    hide Split, InjectLines, Join, IsReadyLine, Contains;
    PatchChangesExactly(text);
    if Patch(text) != text {
      var lines := Split(text, '\n');
      LinesOfInject(text);
      InjectLinesElements(lines);
      MarkerInRule();
      var patched := InjectLines(lines);
      NotSame(text);
      var i :| 0 <= i < |patched| && patched[i] == RULE;
      JoinContains(patched, '\n', i, MARKER);
    }
  }

  lemma NotSame(text: string)
    requires Patch(text) != text
    ensures RULE in InjectLines(Split(text, '\n'))
  {
    hide Split, InjectLines, Join, IsReadyLine, Contains;
    InjectLinesElements(Split(text, '\n'));
    JoinSplit(text, '\n');
  }

  /** A second pass changes nothing. */
  lemma PatchIdempotent(text: string)
    ensures Patch(Patch(text)) == Patch(text)
  {
    hide Inject, Contains, HasReadyLine;
    PatchActivates(text);
    PatchChangesExactly(text);
  }

  // ---------------------------------------------------------------- where the rule goes

  /** The rule, in so many words. */
  lemma RuleText()
    ensures RULE_HEAD == "    rewrite name suffix " && MARKER == ".gkegw.cluster.local"
    ensures RULE_TAIL == " .svc.cluster.local" && RULE == RULE_HEAD + MARKER + RULE_TAIL
  {
  }

  /** A line is ready if it is that word, with blanks around it. */
  lemma ReadyLineMeaning(left: string, word: string, right: string)
    requires Blank(left, GoSpace) && Blank(right, GoSpace) && Trimmed(word, GoSpace)
    ensures IsReadyLine(left + word + right) <==> word == "ready"
  {
    hide Trim;
    TrimPadded(left, word, right, GoSpace);
  }

  /** Every ready line has the rule below it, and the rule stands below ready lines only. */
  lemma {:induction false} RuleBelowReady(lines: seq<string>, i: nat)
    requires RULE !in lines && i < |InjectLines(lines)|
    ensures IsReadyLine(InjectLines(lines)[i]) && InjectLines(lines)[i] != RULE ==>
              i + 1 < |InjectLines(lines)| && InjectLines(lines)[i + 1] == RULE
    ensures InjectLines(lines)[i] == RULE ==> i > 0 && IsReadyLine(InjectLines(lines)[i - 1])
  {
    hide IsReadyLine, RULE, InjectLines;
    if lines == [] {
      InjectLinesStep([RULE]);
    } else {
      InjectLinesStep(lines);
      var front, last := lines[..|lines| - 1], lines[|lines| - 1];
      assert last in lines;
      if i < |InjectLines(front)| { RuleBelowReady(front, i); }
    }
  }

  /** The same of a file that needed the rule and got it. */
  lemma PatchedBelowReady(text: string, i: nat)
    requires Patch(text) != text && i < |Split(Patch(text), '\n')|
    ensures var lines := Split(Patch(text), '\n');
            && (IsReadyLine(lines[i]) && lines[i] != RULE ==> i + 1 < |lines| && lines[i + 1] == RULE)
            && (lines[i] == RULE ==> i > 0 && IsReadyLine(lines[i - 1]))
  {
    hide Split, InjectLines, Join, IsReadyLine, Contains;
    LinesOfInject(text);
    NoRuleLine(text);
    RuleBelowReady(Split(text, '\n'), i);
  }

  // ---------------------------------------------------------------- undoing it

  function WithoutRule(lines: seq<string>): seq<string> {
    if lines == [] then []
    else
      var last := lines[|lines| - 1];
      WithoutRule(lines[..|lines| - 1]) + (if last == RULE then [] else [last])
  }

  /** The text with every line that is the rule deleted. */
  function DeleteRule(text: string): string {
    var kept := WithoutRule(Split(text, '\n'));
    if kept == [] then "" else Join(kept, '\n')
  }

  lemma {:induction false} WithoutRuleConcat(a: seq<string>, b: seq<string>)
    ensures WithoutRule(a + b) == WithoutRule(a) + WithoutRule(b)
  {
    if b == [] {
      assert a + b == a;
    } else {
      var front, last := b[..|b| - 1], b[|b| - 1];
      WithoutRuleConcat(a, front);
      assert (a + b)[..|a + b| - 1] == a + front && (a + b)[|a + b| - 1] == last;
      var rest := if last == RULE then [] else [last];
      assert WithoutRule(a) + (WithoutRule(front) + rest) == WithoutRule(a) + WithoutRule(front) + rest;
    }
  }

  lemma WithoutRuleOne(x: string)
    ensures WithoutRule([x]) == (if x == RULE then [] else [x])
    ensures WithoutRule([]) == []
  {
    assert [x][..0] == [];
  }

  lemma {:induction false} InjectionUndone(lines: seq<string>)
    requires RULE !in lines
    ensures WithoutRule(InjectLines(lines)) == lines
  {
    hide *;
    if lines == [] {
      WithoutRuleOne(RULE);
      InjectLinesStep([RULE]);
    } else {
      var front, last := lines[..|lines| - 1], lines[|lines| - 1];
      InjectionUndone(front);
      InjectLinesStep(lines);
      var tail := if IsReadyLine(last) then [RULE] else [];
      WithoutRuleConcat(InjectLines(front) + [last], tail);
      WithoutRuleConcat(InjectLines(front), [last]);
      WithoutRuleOne(last);
      WithoutRuleOne(RULE);
      assert last in lines;
      assert lines == front + [last] + [];
    }
  }

  lemma NoRuleLine(text: string)
    requires !RuleActive(text)
    ensures RULE !in Split(text, '\n')
  {
    hide Split, Join, Contains;
    var lines := Split(text, '\n');
    JoinSplit(text, '\n');
    MarkerInRule();
    if RULE in lines {
      var i :| 0 <= i < |lines| && lines[i] == RULE;
      JoinContains(lines, '\n', i, MARKER);
    }
  }

  /** Deleting the inserted lines gives back the original. */
  lemma DeletingRestores(text: string)
    requires !RuleActive(text)
    ensures DeleteRule(Patch(text)) == text
  {
    hide Split, InjectLines, WithoutRule, Join, Contains;
    NoRuleLine(text);
    InjectionUndone(Split(text, '\n'));
    LinesOfInject(text);
    JoinSplit(text, '\n');
    if text == "" { EmptyLines(); }
  }

  lemma EmptyLines()
    ensures Split("", '\n') == [""] && WithoutRule([""]) == [""]
  {
    assert [""][..0] == [];
  }

  // ---------------------------------------------------------------- the reconciler's writes

  /** The two ConfigMaps' texts (`None`: cannot be read) and how often CoreDNS was restarted. */
  datatype World = World(template: Option<string>, config: Option<string>, restarts: nat)

  /** Whether the API server accepts each update. */
  datatype Answers = Answers(templateOk: bool, configOk: bool)

  function PatchedIf(text: Option<string>, ok: bool): Option<string> {
    match text
    case None => None
    case Some(t) => if ok then Some(Patch(t)) else Some(t)
  }

  function Step(w: World, a: Answers): World {
    var config := PatchedIf(w.config, a.configOk);
    World(PatchedIf(w.template, a.templateOk), config, w.restarts + (if config != w.config then 1 else 0))
  }

  function Run(w: World, answers: seq<Answers>): World {
    if answers == [] then w else Step(Run(w, answers[..|answers| - 1]), answers[|answers| - 1])
  }

  class Cluster {
    var template: Option<string>
    var config: Option<string>
    var restarts: nat

    constructor (w: World)
      ensures View() == w
    {
      template, config, restarts := w.template, w.config, w.restarts;
    }

    function View(): World
      reads this
    {
      World(template, config, restarts)
    }

    /** The template is patched before the live config; only the config's change restarts CoreDNS. */
    method ReconcileCoreDns(a: Answers)
      modifies this
      ensures View() == Step(old(View()), a)
    {
      hide Patch;
      if template.Some? {
        var patched, changed := InjectRule(template.value);
        if changed && a.templateOk {
          template := Some(patched);
        }
      }
      if config.Some? {
        var patched, changed := InjectRule(config.value);
        if changed && a.configOk {
          config := Some(patched);
          restarts := restarts + 1;
        }
      }
    }
  }

  /** Each text is patched over a run exactly if some update of its own was accepted, whatever became of the other's;
      a text that cannot be read stays so. */
  lemma {:induction false} TextsAfterRun(w: World, answers: seq<Answers>)
    ensures Run(w, answers).template
         == if w.template.Some? && exists i :: 0 <= i < |answers| && answers[i].templateOk
            then Some(Patch(w.template.value)) else w.template
    ensures Run(w, answers).config
         == if w.config.Some? && exists i :: 0 <= i < |answers| && answers[i].configOk
            then Some(Patch(w.config.value)) else w.config
  {
    hide Patch;
    if w.template.Some? { PatchIdempotent(w.template.value); }
    if w.config.Some? { PatchIdempotent(w.config.value); }
    if answers != [] {
      var n := |answers| - 1;
      var front := answers[..n];
      TextsAfterRun(w, front);
      assert forall i :: 0 <= i < n ==> answers[i] == front[i];
      assert answers[n].templateOk ==> exists i :: 0 <= i < |answers| && answers[i].templateOk;
      assert answers[n].configOk ==> exists i :: 0 <= i < |answers| && answers[i].configOk;
    }
  }

  /** Over any run with no edits from outside, CoreDNS is restarted once if its config needed the rule and
      some update was accepted, and otherwise never; the config is then patched for good. */
  lemma {:induction false} AtMostOneRestart(w: World, answers: seq<Answers>)
    requires w.config.Some?
    ensures var accepted := exists i :: 0 <= i < |answers| && answers[i].configOk;
            var needed := !RuleActive(w.config.value) && HasReadyLine(w.config.value);
            && Run(w, answers).restarts == w.restarts + (if accepted && needed then 1 else 0)
            && Run(w, answers).config == (if accepted then Some(Patch(w.config.value)) else w.config)
  {
    hide Patch, RuleActive, HasReadyLine;
    PatchIdempotent(w.config.value);
    PatchChangesExactly(w.config.value);
    if answers != [] {
      var n := |answers| - 1;
      var front := answers[..n];
      AtMostOneRestart(w, front);
      assert forall i :: 0 <= i < n ==> answers[i] == front[i];
      assert answers[n].configOk ==> exists i :: 0 <= i < |answers| && answers[i].configOk;
    }
  }
}

/** The endings the archive can resolve to, and the first-match-wins cascade
    that chooses one from the submitted record. */
module Verdict {
  import opened CaseArchive

  /** The ending identifiers the type declares; `MisjudgeSusanna` is declared
      but no branch of the cascade produces it. */
  datatype EndingId = Truth | MisjudgeEdgar | MisjudgeSusanna | Incomplete

  /** An ending as the result dialog shows it. The description is story text
      and is kept as an opaque constant per ending. */
  datatype Ending = Ending(id: EndingId, title: string, description: string)

  const EdgarEnding: Ending :=
    Ending(MisjudgeEdgar, "结局 B: 仓促的指控", "description:misjudge_edgar")
  const TruthEnding: Ending :=
    Ending(Truth, "结局 A: 完美的归档", "description:truth")
  const PartialTruthEnding: Ending :=
    Ending(Truth, "结局 A-: 证据不足的真相", "description:truth_partial")
  const IncompleteEnding: Ending :=
    Ending(Incomplete, "案件驳回", "description:incomplete")

  /** The four endings the cascade can produce, all distinct. */
  const Produced: set<Ending> := {EdgarEnding, TruthEnding, PartialTruthEnding, IncompleteEnding}

  /** The room, method and suspect the solution needs. */
  const SolutionRoom := "104"
  const SolutionMethod := "maintenance_window"
  const Culprit := "dean"
  const RedHerring := "guest_101"

  /** The victim is identified by the room alone. */
  predicate VictimCorrect(a: Archive)
  {
    a.victimRoom == SolutionRoom
  }

  /** The verdict cascade: the accused suspect is tested first, and the
      remaining two checks matter only when the dean is accused. */
  function Evaluate(a: Archive): (e: Ending)
    ensures e in Produced
    ensures e.id != MisjudgeSusanna
    ensures e.id == Truth <==> a.killer == Culprit
    ensures e.id == MisjudgeEdgar <==> a.killer == RedHerring
  {
    if a.killer == RedHerring then EdgarEnding
    else if a.killer == Culprit && a.methodClue == SolutionMethod && VictimCorrect(a) then TruthEnding
    else if a.killer == Culprit then PartialTruthEnding
    else IncompleteEnding
  }

  // ---------------------------------------------------------------------
  // The same decision written as an ordered table of tagged rules

  /** A condition over the archive built from key tests. */
  datatype Guard = Always | FieldIs(f: Field, v: string) | Both(l: Guard, r: Guard)

  predicate Holds(g: Guard, a: Archive)
  {
    match g
    case Always => true
    case FieldIs(f, v) => Get(a, f) == v
    case Both(l, r) => Holds(l, a) && Holds(r, a)
  }

  /** The keys a guard looks at. */
  function Reads(g: Guard): set<Field>
  {
    match g
    case Always => {}
    case FieldIs(f, _) => {f}
    case Both(l, r) => Reads(l) + Reads(r)
  }

  /** A guard gives the same answer on two records that agree on the keys it reads. */
  lemma {:induction false} HoldsDependsOnlyOnReads(g: Guard, a: Archive, b: Archive)
    requires forall f :: f in Reads(g) ==> Get(a, f) == Get(b, f)
    ensures Holds(g, a) == Holds(g, b)
  {
    match g
    case Always =>
    case FieldIs(f, v) =>
    case Both(l, r) =>
      HoldsDependsOnlyOnReads(l, a, b);
      HoldsDependsOnlyOnReads(r, a, b);
  }

  datatype Rule = Rule(guard: Guard, ending: Ending)

  datatype Option<T> = None | Some(value: T)

  /** The ending of the first rule whose guard holds, if any. */
  function FirstMatch(rules: seq<Rule>, a: Archive): (r: Option<Ending>)
    ensures r.Some? <==> exists i :: 0 <= i < |rules| && Holds(rules[i].guard, a)
    ensures r.Some? ==> exists i :: 0 <= i < |rules| && Holds(rules[i].guard, a) && r.value == rules[i].ending &&
                                   forall j :: 0 <= j < i ==> !Holds(rules[j].guard, a)
  {
    if rules == [] then None
    else if Holds(rules[0].guard, a) then Some(rules[0].ending)
    else
      var rest := FirstMatch(rules[1..], a);
      assert forall i :: 1 <= i < |rules| ==> rules[i] == rules[1..][i - 1];
      rest
  }

  /** The cascade as a table, in order of precedence. */
  const Rules: seq<Rule> := [
    Rule(FieldIs(Killer, RedHerring), EdgarEnding),
    Rule(Both(FieldIs(Killer, Culprit), Both(FieldIs(MethodClue, SolutionMethod), FieldIs(VictimRoom, SolutionRoom))), TruthEnding),
    Rule(FieldIs(Killer, Culprit), PartialTruthEnding),
    Rule(Always, IncompleteEnding)
  ]

  /** The set of keys any rule of a table looks at. */
  function TableReads(rules: seq<Rule>): set<Field>
  {
    if rules == [] then {} else Reads(rules[0].guard) + TableReads(rules[1..])
  }

  /** First-match selection gives the same answer on two records that agree on
      every key the table looks at. */
  lemma {:induction false} FirstMatchDependsOnlyOnReads(rules: seq<Rule>, a: Archive, b: Archive)
    requires forall f :: f in TableReads(rules) ==> Get(a, f) == Get(b, f)
    ensures FirstMatch(rules, a) == FirstMatch(rules, b)
  {
    if rules != [] {
      HoldsDependsOnlyOnReads(rules[0].guard, a, b);
      FirstMatchDependsOnlyOnReads(rules[1..], a, b);
    }
  }

  /** The cascade and the table agree on every record, and the table never
      runs off its end (its last rule always holds). */
  lemma EvaluateIsFirstMatch(a: Archive)
    ensures FirstMatch(Rules, a) == Some(Evaluate(a))
  {
    var r1, r2, r3 := Rules[1..], Rules[2..], Rules[3..];
    assert r1[0] == Rules[1] && r1[1..] == r2;
    assert r2[0] == Rules[2] && r2[1..] == r3;
    assert r3[0] == Rules[3];
    assert Holds(Rules[3].guard, a);
    var g := Rules[1].guard;
    assert Holds(g.r, a) <==> a.methodClue == SolutionMethod && a.victimRoom == SolutionRoom;
    assert Holds(g, a) <==>
      a.killer == Culprit && a.methodClue == SolutionMethod && a.victimRoom == SolutionRoom;
    if a.killer != RedHerring {
      assert FirstMatch(Rules, a) == FirstMatch(r1, a);
      if !Holds(Rules[1].guard, a) {
        assert FirstMatch(r1, a) == FirstMatch(r2, a);
        if !Holds(Rules[2].guard, a) {
          assert FirstMatch(r2, a) == FirstMatch(r3, a);
        }
      } else {
        assert FirstMatch(r1, a) == Some(TruthEnding);
      }
    }
  }

  /** The table looks at the suspect, the method and the room, and nothing else. */
  lemma RulesRead()
    ensures TableReads(Rules) == {Killer, MethodClue, VictimRoom}
  {
    var r1, r2, r3 := Rules[1..], Rules[2..], Rules[3..];
    assert r1[0] == Rules[1] && r1[1..] == r2;
    assert r2[0] == Rules[2] && r2[1..] == r3;
    assert r3[0] == Rules[3] && r3[1..] == [];
    assert TableReads(r3) == {};
    assert TableReads(r2) == {Killer};
    assert TableReads(r1) == {Killer, MethodClue, VictimRoom};
  }

  // ---------------------------------------------------------------------
  // Properties of the cascade

  /** The empty initial record is rejected. */
  lemma EmptyArchiveIncomplete()
    ensures Evaluate(Initial) == IncompleteEnding
  {
  }

  /** Accusing guest 101 gives the misjudgement ending whatever else is filled in. */
  lemma RedHerringWins(a: Archive)
    requires a.killer == RedHerring
    ensures Evaluate(a) == EdgarEnding
  {
  }

  /** The perfect ending is reached exactly when suspect, method and room are all right. */
  lemma FullSolution(a: Archive)
    ensures Evaluate(a) == TruthEnding <==>
      a.killer == Culprit && a.methodClue == SolutionMethod && a.victimRoom == SolutionRoom
  {
  }

  /** Accusing the dean with a wrong method or a wrong room gives the partial ending. */
  lemma PartialSolution(a: Archive)
    ensures Evaluate(a) == PartialTruthEnding <==>
      a.killer == Culprit && (a.methodClue != SolutionMethod || a.victimRoom != SolutionRoom)
  {
  }

  /** The two dean outcomes share an id and differ in title only. */
  lemma DeanOutcomesShareId(a: Archive, b: Archive)
    requires a.killer == Culprit && b.killer == Culprit
    ensures Evaluate(a).id == Evaluate(b).id == Truth
    ensures Evaluate(a).title == Evaluate(b).title <==>
      (VictimCorrect(a) && a.methodClue == SolutionMethod) == (VictimCorrect(b) && b.methodClue == SolutionMethod)
  {
  }

  /** Every suspect other than guest 101 and the dean, the empty choice included,
      is rejected. */
  lemma FallThrough(a: Archive)
    ensures Evaluate(a) == IncompleteEnding <==> a.killer != RedHerring && a.killer != Culprit
  {
  }

  /** The victim's identity and the murder time never change the ending: the
      verdict depends only on the keys the rule table reads. */
  lemma IgnoredFields(a: Archive, b: Archive)
    requires a.killer == b.killer && a.methodClue == b.methodClue && a.victimRoom == b.victimRoom
    ensures Evaluate(a) == Evaluate(b)
  {
  }

  /** In particular, rewriting the identity or the time leaves the ending as it was. */
  lemma UpdateIgnoredFieldKeepsEnding(a: Archive, f: Field, v: string)
    requires f == VictimIdentity || f == MurderTime
    ensures Evaluate(Update(a, f, v)) == Evaluate(a)
  {
  }
}

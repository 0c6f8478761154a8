/** The case-file ("archive") form of the game: five keyed string fields that the
    player fills in from drop-down menus before submitting the report. */
module CaseArchive {

  /** The five keys of the archive record. */
  datatype Field = VictimIdentity | VictimRoom | Killer | MurderTime | MethodClue

  /** The archive record; every field holds the value of the selected option,
      with "" meaning "nothing selected". */
  datatype Archive = Archive(
    victimIdentity: string,
    victimRoom: string,
    killer: string,
    murderTime: string,
    methodClue: string)

  /** The record the session starts with: every field empty. */
  const Initial: Archive := Archive("", "", "", "", "")

  /** Reading one field by its key. */
  function Get(a: Archive, f: Field): string
  {
    match f
    case VictimIdentity => a.victimIdentity
    case VictimRoom => a.victimRoom
    case Killer => a.killer
    case MurderTime => a.murderTime
    case MethodClue => a.methodClue
  }

  /** A copy of the record with the value under key `f` replaced by `v`
      (the spread-and-override update of the form's change handler). */
  function Update(a: Archive, f: Field, v: string): (r: Archive)
    ensures Get(r, f) == v
    ensures forall g :: g != f ==> Get(r, g) == Get(a, g)
  {
    match f
    case VictimIdentity => a.(victimIdentity := v)
    case VictimRoom => a.(victimRoom := v)
    case Killer => a.(killer := v)
    case MurderTime => a.(murderTime := v)
    case MethodClue => a.(methodClue := v)
  }

  /** Every key of the initial record is empty. */
  lemma InitialIsEmpty(f: Field)
    ensures Get(Initial, f) == ""
  {
  }

  /** Writing back the value a field already holds leaves the record as it was. */
  lemma UpdateSameValue(a: Archive, f: Field)
    ensures Update(a, f, Get(a, f)) == a
  {
  }

  /** A later write to the same key overrides an earlier one. */
  lemma UpdateOverwrites(a: Archive, f: Field, v: string, w: string)
    ensures Update(Update(a, f, v), f, w) == Update(a, f, w)
  {
  }

  /** Writes to two different keys do not interfere: their order is irrelevant. */
  lemma UpdatesCommute(a: Archive, f: Field, v: string, g: Field, w: string)
    requires f != g
    ensures Update(Update(a, f, v), g, w) == Update(Update(a, g, w), f, v)
  {
  }

  /** The values offered by the drop-down menu of each key. The form has no
      control for the murder time, so that key can only ever hold "". */
  function Options(f: Field): (opts: set<string>)
    ensures "" in opts
  {
    match f
    case VictimRoom => {"", "101", "102", "104"}
    case VictimIdentity => {"", "edgar", "susanna", "fake_smith", "real_smith"}
    case MethodClue => {"", "umbrella", "carried", "maintenance_window"}
    case Killer => {"", "guest_101", "guest_102", "dean", "arthur"}
    case MurderTime => {""}
  }

  /** A record every key of which holds one of the values its menu offers. */
  predicate Selectable(a: Archive)
  {
    forall f :: Get(a, f) in Options(f)
  }

  /** The initial record is selectable. */
  lemma InitialSelectable()
    ensures Selectable(Initial)
  {
  }

  /** Choosing a menu option keeps the record selectable; choosing a value that
      is not on the menu does not. */
  lemma UpdatePreservesSelectable(a: Archive, f: Field, v: string)
    requires Selectable(a)
    ensures Selectable(Update(a, f, v)) <==> v in Options(f)
  {
  }
}

/** The archive session: the state the game screen keeps between user actions,
    and the handlers that change it. */
module CaseSession {
  import opened CaseArchive
  import opened Verdict
  import opened Documents

  class Session {
    /** The record being filled in. */
    var archive: Archive
    /** The ending currently shown in the result dialog, if the dialog is open. */
    var showEnding: Option<Ending>
    /** The folder whose documents are listed. */
    var activeFolder: string

    /** A fresh screen: empty record, no dialog, the start folder open. */
    constructor ()
      ensures archive == Initial
      ensures showEnding == None
      ensures activeFolder == StartFolder
    {
      archive := Initial;
      showEnding := None;
      activeFolder := StartFolder;
    }

    /** The documents listed for the active folder. */
    function Listed(): (docs: seq<Document>)
      reads this
      ensures forall d :: d in docs <==> d in Catalogue && d.folderId == activeFolder
    {
      InFolderMembers(Catalogue, activeFolder);
      InFolder(Catalogue, activeFolder)
    }

    /** A menu change: key `f` now holds `v`; nothing else changes. */
    method UpdateArchive(f: Field, v: string)
      modifies this`archive
      ensures archive == Update(old(archive), f, v)
      ensures Get(archive, f) == v
      ensures forall g :: g != f ==> Get(archive, g) == Get(old(archive), g)
    {
      archive := Update(archive, f, v);
    }

    /** Submitting the report: the dialog opens on the ending the cascade
        picks; the record itself is left as it was. */
    method CheckCase()
      modifies this`showEnding
      ensures showEnding == Some(Evaluate(archive))
      ensures archive == old(archive)
    {
      showEnding := Some(Evaluate(archive));
    }

    /** Either dismiss control of the dialog: the dialog closes, the record stays. */
    method Dismiss()
      modifies this`showEnding
      ensures showEnding == None
      ensures archive == old(archive)
    {
      showEnding := None;
    }

    /** A sidebar folder button: that folder's documents are listed. */
    method SelectFolder(id: string)
      modifies this`activeFolder
      ensures activeFolder == id
      ensures Listed() == InFolder(Catalogue, id)
    {
      activeFolder := id;
    }
  }

  /** Submitting, dismissing and submitting again shows the same ending as the
      first time, and the record is never touched on the way. */
  method Resubmit(s: Session) returns (first: Ending, second: Ending)
    modifies s`showEnding
    ensures first == second == Evaluate(s.archive)
    ensures s.archive == old(s.archive)
    ensures s.showEnding == Some(second)
  {
    s.CheckCase();
    first := s.showEnding.value;
    s.Dismiss();
    s.CheckCase();
    second := s.showEnding.value;
  }

  /** Filling in the full solution from a fresh screen opens the perfect ending. */
  method SolveFromStart() returns (s: Session)
    ensures fresh(s)
    ensures s.showEnding == Some(TruthEnding)
    ensures s.archive.killer == Culprit
  {
    s := new Session();
    s.UpdateArchive(VictimRoom, "104");
    s.UpdateArchive(VictimIdentity, "fake_smith");
    s.UpdateArchive(MethodClue, "maintenance_window");
    s.UpdateArchive(Killer, "dean");
    s.CheckCase();
    FullSolution(s.archive);
  }
}

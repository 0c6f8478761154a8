/** The document catalogue and the per-folder listing shown above the reader.
    Only the identifiers and the folder of each document matter here; titles
    and contents are story text. */
module Documents {

  datatype Document = Document(id: string, folderId: string)

  /** The folders the sidebar offers, and the one shown first. */
  const Folders: set<string> := {"admin", "service", "system", "evidence"}
  const StartFolder := "admin"

  /** The catalogue, in declaration order. */
  const Catalogue: seq<Document> := [
    Document("guest_list", "admin"),
    Document("staff_roster", "admin"),
    Document("dietary", "service"),
    Document("room_service", "service"),
    Document("laundry", "service"),
    Document("sprinkler", "system"),
    Document("access_log", "system"),
    Document("maintenance", "system"),
    Document("autopsy", "evidence"),
    Document("cipher", "evidence")
  ]

  /** The documents of `docs` whose folder is `folder`, in their original order. */
  function InFolder(docs: seq<Document>, folder: string): (r: seq<Document>)
    ensures |r| <= |docs|
  {
    if docs == [] then []
    else
      var rest := InFolder(docs[1..], folder);
      if docs[0].folderId == folder then [docs[0]] + rest else rest
  }

  /** The listing holds exactly the documents whose folder is the active one. */
  lemma {:induction false} InFolderMembers(docs: seq<Document>, folder: string)
    ensures forall d :: d in InFolder(docs, folder) <==> d in docs && d.folderId == folder
  {
    if docs != [] {
      InFolderMembers(docs[1..], folder);
      assert forall d :: d in docs <==> d == docs[0] || d in docs[1..];
    }
  }

  /** Listing a concatenation lists each part in turn, so the listing keeps
      the relative order of the catalogue. */
  lemma {:induction false} InFolderAppend(xs: seq<Document>, ys: seq<Document>, folder: string)
    ensures InFolder(xs + ys, folder) == InFolder(xs, folder) + InFolder(ys, folder)
  {
    if xs == [] {
      assert xs + ys == ys;
    } else {
      assert (xs + ys)[0] == xs[0];
      assert (xs + ys)[1..] == xs[1..] + ys;
      InFolderAppend(xs[1..], ys, folder);
    }
  }

  /** A single document is listed exactly when its folder is the active one. */
  lemma InFolderSingle(d: Document, folder: string)
    ensures InFolder([d], folder) == if d.folderId == folder then [d] else []
  {
  }

  /** Listing an already listed folder again changes nothing. */
  lemma {:induction false} InFolderIdempotent(docs: seq<Document>, folder: string)
    ensures InFolder(InFolder(docs, folder), folder) == InFolder(docs, folder)
  {
    if docs != [] {
      var rest := InFolder(docs[1..], folder);
      InFolderIdempotent(docs[1..], folder);
      if docs[0].folderId == folder {
        InFolderAppend([docs[0]], rest, folder);
        InFolderSingle(docs[0], folder);
      }
    }
  }

  /** Every document of the catalogue sits in one of the sidebar's folders. */
  lemma CatalogueFolders()
    ensures forall i :: 0 <= i < |Catalogue| ==> Catalogue[i].folderId in Folders
  {
  }

  /** The start folder lists the guest list and the staff roster, in that order. */
  lemma StartFolderListing()
    ensures InFolder(Catalogue, StartFolder) == [Catalogue[0], Catalogue[1]]
  {
  }
}

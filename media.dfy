/**
  The Media store both serializer mixins work against: rows attached to an
  owning object (content type and object id), a media kind worked out from a
  field name, and an optional language code.
 */
module Media {
  import opened Strings
  import opened Values

  /**
    The media kind of a field name: the first of `image`, `video`, `audio`,
    `document`/`file` that occurs in the lower-cased name, `other` if none does.
   */
  function KindOf(name: string): MediaKind
  {
    var l := Lower(name);
    if Contains(l, "image") then Image
    else if Contains(l, "video") then Video
    else if Contains(l, "audio") then Audio
    else if Contains(l, "document") || Contains(l, "file") then Document
    else OtherKind
  }

  /** Appending letters `s` cannot create or destroy an occurrence of a word that does not end in `s`. */
  lemma ContainsIgnoresTrailingS(p: string, tail: string, w: string)
    requires |w| > 0 && w[|w| - 1] != 's'
    requires forall i :: 0 <= i < |tail| ==> tail[i] == 's'
    ensures Contains(p + tail, w) == Contains(p, w)
  {
    if Contains(p + tail, w) {
      var i :| OccursAt(p + tail, w, i);
      assert (p + tail)[i + |w| - 1] == w[|w| - 1];
      assert p[i..i + |w|] == (p + tail)[i..i + |w|];
      assert OccursAt(p, w, i);
    }
    if Contains(p, w) {
      var i :| OccursAt(p, w, i);
      assert (p + tail)[i..i + |w|] == p[i..i + |w|];
      assert OccursAt(p + tail, w, i);
    }
  }

  /**
    Stripping trailing `s` letters (how the read side turns `images` into
    `image`) never changes the media kind: the write side, which classifies
    the name as declared, and the read side agree.
   */
  lemma KindOfIgnoresTrailingS(name: string)
    ensures KindOf(RStrip(name, 's')) == KindOf(name)
  {
    var r := RStrip(name, 's');
    var tail := name[|r|..];
    assert name == r + tail;
    LowerAppend(r, tail);
    var lt := Lower(tail);
    assert forall i :: 0 <= i < |lt| ==> lt[i] == 's';
    ContainsIgnoresTrailingS(Lower(r), lt, "image");
    ContainsIgnoresTrailingS(Lower(r), lt, "video");
    ContainsIgnoresTrailingS(Lower(r), lt, "audio");
    ContainsIgnoresTrailingS(Lower(r), lt, "document");
    ContainsIgnoresTrailingS(Lower(r), lt, "file");
  }

  /** The owning object of a Media row: its content type and primary key. */
  datatype Owner = Owner(contentType: string, objectId: nat)

  /** One row of the Media table. */
  datatype MediaRow = MediaRow(
    id: nat,
    owner: Owner,
    file: Option<Upload>,
    kind: MediaKind,
    originalFilename: string,
    uploadedBy: Option<nat>,
    language: Option<string>,
    isPublic: bool,
    fileSize: nat)

  /** The Media table: rows in creation order, and the id the next row receives. */
  class MediaStore {
    var rows: seq<MediaRow>
    var nextId: nat

    /** Row ids increase along the table and stay below `nextId`, so they are unique. */
    ghost predicate Valid()
      reads this
    {
      && (forall i :: 0 <= i < |rows| ==> rows[i].id < nextId)
      && (forall i, j :: 0 <= i < j < |rows| ==> rows[i].id < rows[j].id)
    }

    constructor ()
      ensures Valid() && rows == [] && nextId == 0
    {
      rows := [];
      nextId := 0;
    }

    /** `Media.objects.create(...)`: appends one row with a fresh id. */
    method Create(owner: Owner, file: Upload, kind: MediaKind, user: Option<nat>, language: Option<string>)
      returns (row: MediaRow)
      requires Valid()
      modifies this
      ensures Valid()
      ensures row == MediaRow(old(nextId), owner, Some(file), kind, file.name, user, language, true, file.size)
      ensures rows == old(rows) + [row] && nextId == old(nextId) + 1
    {
      row := MediaRow(nextId, owner, Some(file), kind, file.name, user, language, true, file.size);
      rows := rows + [row];
      nextId := nextId + 1;
    }
  }
}

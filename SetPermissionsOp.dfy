/** SetPermissions: the redo-log record of a change to a folder's access-control list.
    It carries the folder id and the ACL in its serialized text form, where the empty
    string stands for "no ACL". */
module SetPermissionsOp {
  import opened Common
  import opened JavaText

  /** RedoableOp.UNKNOWN_ID. */
  const UnknownId: int32 := 0

  // ------------------------------------------------------- the log stream

  /** One value of a redo-log stream: writeInt/readInt or writeUTF/readUTF. */
  datatype Item = IntItem(i: int32) | UtfItem(s: string)

  class RedoLogOutput {
    var items: seq<Item>

    constructor ()
      ensures items == []
    {
      items := [];
    }

    method WriteInt(i: int32)
      modifies this
      ensures items == old(items) + [IntItem(i)]
    {
      items := items + [IntItem(i)];
    }

    method WriteUtf(s: string)
      modifies this
      ensures items == old(items) + [UtfItem(s)]
    {
      items := items + [UtfItem(s)];
    }
  }

  class RedoLogInput {
    const items: seq<Item>
    var pos: nat

    ghost predicate Valid()
      reads this
    {
      pos <= |items|
    }

    constructor (items: seq<Item>)
      ensures this.items == items && pos == 0 && Valid()
    {
      this.items := items;
      pos := 0;
    }

    /** readInt: the next item when it is an int; otherwise an IOException and nothing is consumed. */
    method ReadInt() returns (r: Result<int32>)
      requires Valid()
      modifies this
      ensures Valid()
      ensures IntAt(items, old(pos)).Some? ==> r == Ok(IntAt(items, old(pos)).value) && pos == old(pos) + 1
      ensures IntAt(items, old(pos)).None? ==> r.Err? && pos == old(pos)
    {
      if pos < |items| && items[pos].IntItem? {
        r := Ok(items[pos].i);
        pos := pos + 1;
      } else {
        r := Err("EOFException");
      }
    }

    /** readUTF: the next item when it is a string; otherwise an IOException. */
    method ReadUtf() returns (r: Result<string>)
      requires Valid()
      modifies this
      ensures Valid()
      ensures UtfAt(items, old(pos)).Some? ==> r == Ok(UtfAt(items, old(pos)).value) && pos == old(pos) + 1
      ensures UtfAt(items, old(pos)).None? ==> r.Err? && pos == old(pos)
    {
      if pos < |items| && items[pos].UtfItem? {
        r := Ok(items[pos].s);
        pos := pos + 1;
      } else {
        r := Err("EOFException");
      }
    }
  }

  function IntAt(items: seq<Item>, pos: nat): Option<int32>
  {
    if pos < |items| && items[pos].IntItem? then Some(items[pos].i) else None
  }

  function UtfAt(items: seq<Item>, pos: nat): Option<string>
  {
    if pos < |items| && items[pos].UtfItem? then Some(items[pos].s) else None
  }

  // ------------------------------------------------------ record layout

  /** The items serializeData writes: the folder id, then the ACL text. */
  function Serialized(folderId: int32, acl: string): seq<Item>
  {
    [IntItem(folderId), UtfItem(acl)]
  }

  /** What deserializeData reads at `pos`: both fields, only the folder id (the ACL
      read failed), or nothing (the folder id read failed). */
  datatype FieldsRead = BothRead(folderId: int32, acl: string) | FolderOnly(folderId: int32) | NothingRead

  function ReadFields(items: seq<Item>, pos: nat): FieldsRead
  {
    match IntAt(items, pos)
    case None => NothingRead
    case Some(f) =>
      match UtfAt(items, pos + 1)
      case None => FolderOnly(f)
      case Some(a) => BothRead(f, a)
  }

  /** Reading back what serializeData wrote, wherever it sits in the log, restores both
      fields and consumes exactly the two items. */
  lemma SerializedRoundTrip(before: seq<Item>, folderId: int32, acl: string, after: seq<Item>)
    ensures ReadFields(before + Serialized(folderId, acl) + after, |before|) == BothRead(folderId, acl)
  {
    var s := before + Serialized(folderId, acl) + after;
    assert s[|before|] == IntItem(folderId);
    assert s[|before| + 1] == UtfItem(acl);
  }

  /** Reading is all-or-nothing only per field: a stream that ends after the folder id
      yields the folder id and an error. */
  lemma TruncatedRecord(before: seq<Item>, folderId: int32)
    ensures ReadFields(before + [IntItem(folderId)], |before|) == FolderOnly(folderId)
    ensures ReadFields(before, |before|) == NothingRead
  {
    assert (before + [IntItem(folderId)])[|before|] == IntItem(folderId);
  }

  // ------------------------------------------------------- ACL text

  /** The constructor's ACL text: "" for a null ACL, its toString() otherwise. */
  function StoredAcl(acl: Option<string>): string
  {
    match acl
    case None => ""
    case Some(text) => text
  }

  /** What redo hands to setPermissions: no ACL for "", the ACL parsed from the text otherwise. */
  function RedoAcl(acl: string): (r: Option<string>)
    ensures r.None? <==> acl == ""
    ensures r.Some? ==> r.value == acl
  {
    if acl == "" then None else Some(acl)
  }

  /** The "" convention carries a null ACL through the log intact, and a non-empty ACL text
      too; only an ACL whose text is itself empty would come back as null. */
  lemma AclConvention(acl: Option<string>)
    ensures acl.None? ==> RedoAcl(StoredAcl(acl)).None?
    ensures acl.Some? && acl.value != "" ==> RedoAcl(StoredAcl(acl)) == acl
    ensures acl == Some("") ==> RedoAcl(StoredAcl(acl)).None?
  {
  }

  // ------------------------------------------------------ printable data

  /** getPrintableData's text. */
  function Printable(folderId: int32, acl: string): string
  {
    "id=" + IntToString(folderId as int) + ", acl=" + acl
  }

  /** The first index of ',' in `s`, or |s| when there is none. */
  function CommaIndex(s: string): (i: nat)
    ensures i <= |s| && (i < |s| ==> s[i] == ',') && forall j :: 0 <= j < i ==> s[j] != ','
    decreases |s|
  {
    if |s| == 0 || s[0] == ',' then 0 else 1 + CommaIndex(s[1..])
  }

  /** Reads a printable text back: "id=", a decimal number, ", acl=" and the ACL text. */
  function ParsePrintable(s: string): Option<(int, string)>
  {
    if |s| < 3 || s[..3] != "id=" then None
    else
      var rest := s[3..];
      var i := CommaIndex(rest);
      var tail := rest[i..];
      if |tail| < 6 || tail[..6] != ", acl=" then None
      else match ParseInt(rest[..i])
        case None => None
        case Some(id) => Some((id, tail[6..]))
  }

  lemma CommaIndexPrefix(p: string, t: string)
    requires ',' !in p && |t| > 0 && t[0] == ','
    ensures CommaIndex(p + t) == |p|
  {
    assert (p + t)[|p|] == ',';
    assert forall j :: 0 <= j < |p| ==> (p + t)[j] == p[j];
  }

  /** The printable data determine the folder id and the ACL: reading them back gives both. */
  lemma PrintableRoundTrip(folderId: int32, acl: string)
    ensures ParsePrintable(Printable(folderId, acl)) == Some((folderId as int, acl))
  {
    var digits := IntToString(folderId as int);
    var s := Printable(folderId, acl);
    assert s == "id=" + (digits + (", acl=" + acl));
    var rest := s[3..];
    assert rest == digits + (", acl=" + acl);
    assert ',' !in digits;
    CommaIndexPrefix(digits, ", acl=" + acl);
    assert rest[..|digits|] == digits;
    assert rest[|digits|..] == ", acl=" + acl;
    IntToStringRoundTrip(folderId as int);
  }

  // ------------------------------------------------------------ the op

  /** The redo request setPermissions receives. */
  datatype PermissionsRequest = PermissionsRequest(mailboxId: int, folderId: int32, acl: Option<string>)

  class SetPermissions {
    /** The mailbox, kept by RedoableOp. */
    var mailboxId: int
    var folderId: int32
    var acl: string

    /** SetPermissions(): the op before deserializeData fills it in. */
    constructor Empty()
      ensures folderId == UnknownId && acl == ""
    {
      mailboxId := UnknownId as int;
      folderId := UnknownId;
      acl := "";
    }

    /** SetPermissions(mailboxId, folderId, acl); `acl` is None for null, else its toString(). */
    constructor (mailboxId: int, folderId: int32, acl: Option<string>)
      ensures this.mailboxId == mailboxId && this.folderId == folderId && this.acl == StoredAcl(acl)
    {
      this.mailboxId := mailboxId;
      this.folderId := folderId;
      this.acl := if acl.None? then "" else acl.value;
    }

    /** getPrintableData. */
    method PrintableData() returns (s: string)
      ensures s == Printable(folderId, acl)
    {
      var sb := "id=";
      sb := sb + IntToString(folderId as int);
      sb := sb + ", acl=";
      sb := sb + acl;
      s := sb;
    }

    /** serializeData. */
    method SerializeData(out: RedoLogOutput)
      modifies out
      ensures out.items == old(out.items) + Serialized(folderId, acl)
    {
      out.WriteInt(folderId);
      out.WriteUtf(acl);
    }

    /** deserializeData: the folder id, then the ACL text; a failed read leaves the fields
      not yet read as they were and reports the IOException. */
    method DeserializeData(input: RedoLogInput) returns (r: Result<()>)
      requires input.Valid()
      modifies this, input
      ensures input.Valid()
      ensures mailboxId == old(mailboxId)
      ensures match ReadFields(input.items, old(input.pos))
        case BothRead(f, a) => r.Ok? && folderId == f && acl == a && input.pos == old(input.pos) + 2
        case FolderOnly(f) => r.Err? && folderId == f && acl == old(acl)
        case NothingRead => r.Err? && folderId == old(folderId) && acl == old(acl)
    {
      var f := input.ReadInt();
      if f.Err? {
        return Err(f.message);
      }
      folderId := f.value;
      var a := input.ReadUtf();
      if a.Err? {
        return Err(a.message);
      }
      acl := a.value;
      return Ok(());
    }

    /** redo: the setPermissions call it makes on the op's mailbox. */
    method Redo() returns (req: PermissionsRequest)
      ensures req.mailboxId == mailboxId && req.folderId == folderId
      ensures req.acl.None? <==> acl == ""
      ensures req.acl.Some? ==> req.acl.value == acl
      ensures req.acl == RedoAcl(acl)
    {
      req := PermissionsRequest(mailboxId, folderId, RedoAcl(acl));
    }
  }

  /** An op written to a log and read back into an empty op carries the same folder id and
      ACL text. */
  method LogRoundTrip(op: SetPermissions) returns (copy: SetPermissions)
    ensures copy.folderId == op.folderId && copy.acl == op.acl
  {
    var out := new RedoLogOutput();
    op.SerializeData(out);
    var input := new RedoLogInput(out.items);
    copy := new SetPermissions.Empty();
    SerializedRoundTrip([], op.folderId, op.acl, []);
    assert [] + Serialized(op.folderId, op.acl) + [] == out.items;
    var r := copy.DeserializeData(input);
  }
}

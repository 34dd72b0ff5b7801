/** The IMAP client's record of one mailbox: its name, flags, access mode and the
    counters the server reports, updated by untagged responses and response codes
    and read from a STATUS response (section 7.2.4 of RFC 3501). */
module ImapMailbox {
  import opened Common

  /** A parenthesised list of flag atoms, as the server sent it. */
  type Flags = seq<string>

  /** The access mode a [READ-WRITE] or [READ-ONLY] response code reports. */
  datatype Access = ReadWrite | ReadOnly

  /** A snapshot of every field of a Mailbox; `None` stands for null. The counters are
      Java longs, -1 while the server has not reported them. */
  datatype MailboxInfo = MailboxInfo(
    name: Option<string>,
    flags: Option<Flags>,
    permanentFlags: Option<Flags>,
    existsCount: int,
    recent: int,
    uidNext: int,
    uidValidity: int,
    unseen: int,
    access: Option<Access>)

  /** The state of a newly constructed Mailbox: nothing reported yet. */
  function Fresh(name: Option<string>): (m: MailboxInfo)
    ensures m.name == name && m.flags.None? && m.permanentFlags.None? && m.access.None?
    ensures m.existsCount == -1 && m.recent == -1 && m.uidNext == -1 && m.uidValidity == -1 && m.unseen == -1
  {
    MailboxInfo(name, None, None, -1, -1, -1, -1, -1, None)
  }

  predicate ReadOnlyOf(m: MailboxInfo) { m.access == Some(ReadOnly) }

  predicate ReadWriteOf(m: MailboxInfo) { m.access == Some(ReadWrite) }

  // -------------------------------------------------- responses

  /** The response code inside an OK response's text. */
  datatype ResponseText =
    | UnseenCode(n: int)
    | UidNextCode(n: int)
    | UidValidityCode(n: int)
    | PermanentFlagsCode(flags: Flags)
    | ReadWriteCode
    | ReadOnlyCode
    | OtherCode(code: string)

  /** An untagged response as far as a Mailbox looks at it. */
  datatype Response =
    | ExistsResponse(n: int)
    | RecentResponse(n: int)
    | FlagsResponse(flags: Flags)
    | OkResponse(text: ResponseText)
    | OtherResponse(code: string)

  /** Whether the response was consumed, and the mailbox after it. */
  datatype Handled = Handled(handled: bool, info: MailboxInfo)

  /** handleResponseText. UIDNEXT and UIDVALIDITY are taken only when positive (a server
      sending 0 must not erase a known value) but consumed either way; UNSEEN is taken as
      it comes; an unknown code is not consumed and changes nothing. */
  function OnResponseText(m: MailboxInfo, rt: ResponseText): (r: Handled)
    ensures r.handled <==> !rt.OtherCode?
    ensures !r.handled ==> r.info == m
    ensures r.info.(uidNext := m.uidNext, uidValidity := m.uidValidity, unseen := m.unseen,
                    permanentFlags := m.permanentFlags, access := m.access) == m
    ensures rt.UnseenCode? ==> r.info == m.(unseen := rt.n)
    ensures rt.UidNextCode? ==> r.info == if rt.n > 0 then m.(uidNext := rt.n) else m
    ensures rt.UidValidityCode? ==> r.info == if rt.n > 0 then m.(uidValidity := rt.n) else m
    ensures rt.PermanentFlagsCode? ==> r.info == m.(permanentFlags := Some(rt.flags))
    ensures rt.ReadWriteCode? ==> r.info == m.(access := Some(ReadWrite))
    ensures rt.ReadOnlyCode? ==> r.info == m.(access := Some(ReadOnly))
    ensures rt.ReadWriteCode? ==> ReadWriteOf(r.info) && !ReadOnlyOf(r.info)
    ensures rt.ReadOnlyCode? ==> ReadOnlyOf(r.info) && !ReadWriteOf(r.info)
  {
    match rt
    case UnseenCode(n) => Handled(true, m.(unseen := n))
    case UidNextCode(n) => Handled(true, if n > 0 then m.(uidNext := n) else m)
    case UidValidityCode(n) => Handled(true, if n > 0 then m.(uidValidity := n) else m)
    case PermanentFlagsCode(f) => Handled(true, m.(permanentFlags := Some(f)))
    case ReadWriteCode => Handled(true, m.(access := Some(ReadWrite)))
    case ReadOnlyCode => Handled(true, m.(access := Some(ReadOnly)))
    case OtherCode(_) => Handled(false, m)
  }

  /** handleResponse: EXISTS, RECENT and FLAGS set their own field and are consumed; OK
      defers to its response code; anything else is not consumed and changes nothing. */
  function OnResponse(m: MailboxInfo, res: Response): (r: Handled)
    ensures res.ExistsResponse? ==> r == Handled(true, m.(existsCount := res.n))
    ensures res.RecentResponse? ==> r == Handled(true, m.(recent := res.n))
    ensures res.FlagsResponse? ==> r == Handled(true, m.(flags := Some(res.flags)))
    ensures res.OkResponse? ==> r == OnResponseText(m, res.text)
    ensures res.OtherResponse? ==> r == Handled(false, m)
  {
    match res
    case ExistsResponse(n) => Handled(true, m.(existsCount := n))
    case RecentResponse(n) => Handled(true, m.(recent := n))
    case FlagsResponse(f) => Handled(true, m.(flags := Some(f)))
    case OkResponse(rt) => OnResponseText(m, rt)
    case OtherResponse(_) => Handled(false, m)
  }

  /** The mailbox after a sequence of responses. */
  function OnResponses(m: MailboxInfo, rs: seq<Response>): MailboxInfo
    decreases |rs|
  {
    if |rs| == 0 then m else OnResponses(OnResponse(m, rs[0]).info, rs[1..])
  }

  /** UIDNEXT and UIDVALIDITY are unset or positive. */
  predicate UidsUnsetOrPositive(m: MailboxInfo)
  {
    (m.uidNext == -1 || m.uidNext > 0) && (m.uidValidity == -1 || m.uidValidity > 0)
  }

  /** Because of the guards, no sequence of responses can make UIDNEXT or UIDVALIDITY
      zero or negative once they start out unset or positive, as they do in a fresh mailbox. */
  lemma {:induction false} ResponsesKeepUidsUnsetOrPositive(m: MailboxInfo, rs: seq<Response>)
    requires UidsUnsetOrPositive(m)
    ensures UidsUnsetOrPositive(OnResponses(m, rs))
    decreases |rs|
  {
    if |rs| > 0 {
      ResponsesKeepUidsUnsetOrPositive(OnResponse(m, rs[0]).info, rs[1..]);
    }
  }

  /** An OK response carrying a READ-WRITE or READ-ONLY code. */
  predicate SetsAccess(res: Response)
  {
    res.OkResponse? && (res.text.ReadWriteCode? || res.text.ReadOnlyCode?)
  }

  /** Responses never touch the name, and only READ-WRITE and READ-ONLY codes touch the
      access mode. */
  lemma {:induction false} ResponsesKeepName(m: MailboxInfo, rs: seq<Response>)
    ensures OnResponses(m, rs).name == m.name
    ensures (forall k :: 0 <= k < |rs| ==> !SetsAccess(rs[k])) ==> OnResponses(m, rs).access == m.access
    decreases |rs|
  {
    if |rs| > 0 {
      ResponsesKeepName(OnResponse(m, rs[0]).info, rs[1..]);
      assert forall k :: 0 <= k < |rs[1..]| ==> rs[1..][k] == rs[k + 1];
    }
  }

  /** The access mode is the one the last READ-WRITE or READ-ONLY code reported, whatever
      other responses and response codes come after it. */
  lemma {:induction false} LastAccessCodeWins(m: MailboxInfo, before: seq<Response>, rt: ResponseText, after: seq<Response>)
    requires rt.ReadWriteCode? || rt.ReadOnlyCode?
    requires forall k :: 0 <= k < |after| ==> !SetsAccess(after[k])
    ensures OnResponses(m, before + [OkResponse(rt)] + after).access == Some(if rt.ReadOnlyCode? then ReadOnly else ReadWrite)
    decreases |before|
  {
    if |before| == 0 {
      assert before + [OkResponse(rt)] + after == [OkResponse(rt)] + after;
      assert ([OkResponse(rt)] + after)[1..] == after;
      ResponsesKeepName(OnResponse(m, OkResponse(rt)).info, after);
    } else {
      assert (before + [OkResponse(rt)] + after)[1..] == before[1..] + [OkResponse(rt)] + after;
      LastAccessCodeWins(OnResponse(m, before[0]).info, before[1..], rt, after);
    }
  }

  // ----------------------------------------------------- STATUS

  /** The counters a STATUS response can report. */
  datatype StatusField = Messages | Recent | UidNext | UidValidity | Unseen

  /** An attribute atom of a STATUS response: one of the five, or something else. */
  datatype StatusAtt = Known(field: StatusField) | OtherAtt(atom: string)

  /** One `status-att SP number` pair. */
  datatype StatusItem = StatusItem(att: StatusAtt, n: nat)

  /** A STATUS response: the mailbox name (already decoded) and its attribute list. */
  datatype StatusResponse = StatusResponse(mailbox: string, items: seq<StatusItem>)

  /** The field a STATUS attribute sets: MESSAGES sets the `exists` count. */
  function FieldValue(m: MailboxInfo, f: StatusField): int
  {
    match f
    case Messages => m.existsCount
    case Recent => m.recent
    case UidNext => m.uidNext
    case UidValidity => m.uidValidity
    case Unseen => m.unseen
  }

  /** Sets one counter and leaves every other field alone. */
  function SetField(m: MailboxInfo, f: StatusField, n: int): (r: MailboxInfo)
    ensures FieldValue(r, f) == n
    ensures forall g :: g != f ==> FieldValue(r, g) == FieldValue(m, g)
    ensures r.name == m.name && r.flags == m.flags && r.permanentFlags == m.permanentFlags && r.access == m.access
  {
    match f
    case Messages => m.(existsCount := n)
    case Recent => m.(recent := n)
    case UidNext => m.(uidNext := n)
    case UidValidity => m.(uidValidity := n)
    case Unseen => m.(unseen := n)
  }

  /** The mailbox after the attribute list, and the ParseException's message when an
      unknown attribute stopped it (the fields set before it stay set). */
  datatype StatusOutcome = StatusOutcome(info: MailboxInfo, error: Option<string>)

  function ApplyStatus(m: MailboxInfo, items: seq<StatusItem>): StatusOutcome
    decreases |items|
  {
    if |items| == 0 then StatusOutcome(m, None)
    else match items[0].att
      case OtherAtt(atom) => StatusOutcome(m, Some("Invalid STATUS response attribute: " + atom))
      case Known(f) => ApplyStatus(SetField(m, f, items[0].n), items[1..])
  }

  predicate AllKnown(items: seq<StatusItem>)
  {
    forall k :: 0 <= k < |items| ==> items[k].att.Known?
  }

  /** A STATUS list fails exactly when it holds an attribute other than the five, and the
      message then names the first such attribute. */
  lemma {:induction false} StatusFailsOnUnknownAttribute(m: MailboxInfo, items: seq<StatusItem>)
    ensures ApplyStatus(m, items).error.None? <==> AllKnown(items)
    ensures forall k :: 0 <= k < |items| && items[k].att.OtherAtt? && AllKnown(items[..k]) ==>
              ApplyStatus(m, items).error == Some("Invalid STATUS response attribute: " + items[k].att.atom)
    decreases |items|
  {
    if |items| > 0 && items[0].att.Known? {
      var m' := SetField(m, items[0].att.field, items[0].n);
      StatusFailsOnUnknownAttribute(m', items[1..]);
      assert forall k :: 0 <= k < |items[1..]| ==> items[1..][k] == items[k + 1];
      forall k | 0 <= k < |items| && items[k].att.OtherAtt? && AllKnown(items[..k])
        ensures ApplyStatus(m, items).error == Some("Invalid STATUS response attribute: " + items[k].att.atom)
      {
        assert k > 0;
        assert items[1..][..k - 1] == items[1..k];
        assert forall j :: 0 <= j < k - 1 ==> items[1..k][j] == items[..k][j + 1];
      }
    } else if |items| > 0 {
      assert !AllKnown(items) by { assert !items[0].att.Known?; }
      forall k | 0 <= k < |items| && items[k].att.OtherAtt? && AllKnown(items[..k])
        ensures ApplyStatus(m, items).error == Some("Invalid STATUS response attribute: " + items[k].att.atom)
      {
        if k > 0 { assert items[..k][0] == items[0]; }
      }
    }
  }

  /** A counter reported in the list ends with the value of its last occurrence; STATUS,
      unlike the response codes, takes a zero as it comes. */
  lemma {:induction false} StatusLastValueWins(m: MailboxInfo, items: seq<StatusItem>, k: nat)
    requires AllKnown(items) && k < |items|
    requires forall j :: k < j < |items| ==> items[j].att != items[k].att
    ensures FieldValue(ApplyStatus(m, items).info, items[k].att.field) == items[k].n
    decreases |items|
  {
    var m' := SetField(m, items[0].att.field, items[0].n);
    assert forall j :: 0 <= j < |items[1..]| ==> items[1..][j] == items[j + 1];
    if k == 0 {
      StatusMissingKeepsValue(m', items[1..], items[0].att.field);
    } else {
      StatusLastValueWins(m', items[1..], k - 1);
    }
  }

  /** A counter the list does not mention keeps the value it had, so a freshly read
      mailbox reports -1 for it. */
  lemma {:induction false} StatusMissingKeepsValue(m: MailboxInfo, items: seq<StatusItem>, f: StatusField)
    requires forall j :: 0 <= j < |items| ==> items[j].att != Known(f)
    ensures FieldValue(ApplyStatus(m, items).info, f) == FieldValue(m, f)
    decreases |items|
  {
    if |items| > 0 && items[0].att.Known? {
      assert forall j :: 0 <= j < |items[1..]| ==> items[1..][j] == items[j + 1];
      StatusMissingKeepsValue(SetField(m, items[0].att.field, items[0].n), items[1..], f);
    }
  }

  /** The attribute list changes only the five counters. */
  lemma {:induction false} StatusKeepsOtherFields(m: MailboxInfo, items: seq<StatusItem>)
    ensures var r := ApplyStatus(m, items).info;
      r.name == m.name && r.flags == m.flags && r.permanentFlags == m.permanentFlags && r.access == m.access
    decreases |items|
  {
    if |items| > 0 && items[0].att.Known? {
      StatusKeepsOtherFields(SetField(m, items[0].att.field, items[0].n), items[1..]);
    }
  }

  /** A STATUS reporting UIDNEXT 0 leaves a zero UIDNEXT, which a [UIDNEXT 0] response code
      never does. */
  lemma StatusTakesZeroUidNext(name: string)
    ensures ApplyStatus(Fresh(Some(name)), [StatusItem(Known(UidNext), 0)]).info.uidNext == 0
    ensures OnResponse(Fresh(Some(name)), OkResponse(UidNextCode(0))).info.uidNext == -1
  {
    assert [StatusItem(Known(UidNext), 0)][1..] == [];
  }

  lemma StatusStep(m: MailboxInfo, items: seq<StatusItem>, i: nat, f: StatusField)
    requires i < |items| && items[i].att == Known(f)
    ensures ApplyStatus(m, items[i..]) == ApplyStatus(SetField(m, f, items[i].n), items[i + 1..])
  {
    assert items[i..][0] == items[i];
    assert items[i..][1..] == items[i + 1..];
  }

  // ------------------------------------------------------ the class

  class Mailbox {
    var name: Option<string>
    var flags: Option<Flags>
    var permanentFlags: Option<Flags>
    var existsCount: int
    var recent: int
    var uidNext: int
    var uidValidity: int
    var unseen: int
    var access: Option<Access>

    function Info(): MailboxInfo
      reads this
    {
      MailboxInfo(name, flags, permanentFlags, existsCount, recent, uidNext, uidValidity, unseen, access)
    }

    /** Mailbox(String name), and with a null name the private Mailbox() readStatus uses. */
    constructor (name: Option<string>)
      ensures Info() == Fresh(name)
      ensures !IsReadOnly() && !IsReadWrite()
    {
      this.name := name;
      flags, permanentFlags := None, None;
      existsCount, recent, uidNext, uidValidity, unseen := -1, -1, -1, -1, -1;
      access := None;
    }

    /** Mailbox(Mailbox mb): a copy of every field. */
    constructor Copy(mb: Mailbox)
      ensures Info() == mb.Info()
    {
      name := mb.name;
      flags := mb.flags;
      permanentFlags := mb.permanentFlags;
      existsCount := mb.existsCount;
      recent := mb.recent;
      uidNext := mb.uidNext;
      uidValidity := mb.uidValidity;
      unseen := mb.unseen;
      access := mb.access;
    }

    function IsReadOnly(): (r: bool)
      reads this
      ensures r <==> ReadOnlyOf(Info())
      ensures r ==> !IsReadWrite()
    {
      access == Some(ReadOnly)
    }

    function IsReadWrite(): (r: bool)
      reads this
      ensures r <==> ReadWriteOf(Info())
    {
      access == Some(ReadWrite)
    }

    method SetName(name: Option<string>)
      modifies this
      ensures Info() == old(Info()).(name := name)
    {
      this.name := name;
    }

    method HandleResponse(res: Response) returns (handled: bool)
      modifies this
      ensures Handled(handled, Info()) == OnResponse(old(Info()), res)
    {
      match res
      case ExistsResponse(n) =>
        existsCount := n;
        handled := true;
      case RecentResponse(n) =>
        recent := n;
        handled := true;
      case FlagsResponse(f) =>
        flags := Some(f);
        handled := true;
      case OkResponse(rt) =>
        handled := HandleResponseText(rt);
      case OtherResponse(_) =>
        handled := false;
    }

    method HandleResponseText(rt: ResponseText) returns (handled: bool)
      modifies this
      ensures Handled(handled, Info()) == OnResponseText(old(Info()), rt)
    {
      match rt
      case UnseenCode(n) =>
        unseen := n;
        handled := true;
      case UidNextCode(n) =>
        if n > 0 {
          uidNext := n;
        }
        handled := true;
      case UidValidityCode(n) =>
        if n > 0 {
          uidValidity := n;
        }
        handled := true;
      case PermanentFlagsCode(f) =>
        permanentFlags := Some(f);
        handled := true;
      case ReadWriteCode =>
        access := Some(ReadWrite);
        handled := true;
      case ReadOnlyCode =>
        access := Some(ReadOnly);
        handled := true;
      case OtherCode(_) =>
        handled := false;
    }

    /** parseStatus: the name, then each attribute pair in order; an unknown attribute
      stops it with a ParseException. */
    method ParseStatus(resp: StatusResponse) returns (error: Option<string>)
      modifies this
      ensures StatusOutcome(Info(), error) == ApplyStatus(old(Info()).(name := Some(resp.mailbox)), resp.items)
    {
      name := Some(resp.mailbox);
      ghost var start := Info();
      var items := resp.items;
      var i := 0;
      while i < |items|
        invariant 0 <= i <= |items|
        invariant ApplyStatus(Info(), items[i..]) == ApplyStatus(start, items)
      {
        var item := items[i];
        match item.att {
          case OtherAtt(atom) =>
            assert items[i..][0] == item;
            return Some("Invalid STATUS response attribute: " + atom);
          case Known(f) =>
            StatusStep(Info(), items, i, f);
            match f {
              case Messages => existsCount := item.n;
              case Recent => recent := item.n;
              case UidNext => uidNext := item.n;
              case UidValidity => uidValidity := item.n;
              case Unseen => unseen := item.n;
            }
        }
        i := i + 1;
      }
      assert items[i..] == [];
      return None;
    }
  }

  /** readStatus: a new mailbox read from a STATUS response, or the ParseException. */
  method ReadStatus(resp: StatusResponse) returns (r: Result<Mailbox>)
    ensures r.Ok? <==> AllKnown(resp.items)
    ensures r.Ok? ==> fresh(r.value) && r.value.Info() == ApplyStatus(Fresh(Some(resp.mailbox)), resp.items).info
    ensures r.Err? ==> Some(r.message) == ApplyStatus(Fresh(Some(resp.mailbox)), resp.items).error
  {
    var mbox := new Mailbox(None);
    var error := mbox.ParseStatus(resp);
    StatusFailsOnUnknownAttribute(Fresh(Some(resp.mailbox)), resp.items);
    if error.Some? {
      return Err(error.value);
    }
    return Ok(mbox);
  }
}

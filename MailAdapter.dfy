/** ZimbraMailAdapter: executes the actions a Sieve filter produced for one
    incoming message against the recipient's mailbox. The filing rules are given
    first as functions on values (the specification), then the adapter class
    whose methods are proved to follow them. */
module Filter {
  import opened Common
  import opened JavaText
  import opened SieveActions
  import opened IdnHeaders

  /** Mailbox.ID_FOLDER_USER_ROOT, ID_FOLDER_INBOX and ID_FOLDER_SPAM. */
  const IdFolderUserRoot: int := 1
  const IdFolderInbox: int := 2
  const IdFolderSpam: int := 4

  /** Flag.BITMASK_UNREAD: the bit of the unread flag. */
  const BitmaskUnread: Bits := {9}

  // ------------------------------------------------------- collaborators

  /** A mountpoint: a local folder standing for a folder of another account. */
  datatype MountRef = MountRef(ownerId: string, remoteId: int)

  /** A local folder; `mount` is present exactly when the folder is a Mountpoint. */
  datatype Folder = Folder(id: int, mount: Option<MountRef>)

  /** getFolderByPathLongestMatch: the deepest existing folder on the path and the
      part of the path below it (null when the whole path matched). */
  datatype FolderMatch = FolderMatch(folder: Folder, remainingPath: Option<string>)

  /** One call of Mailbox.addMessage: the target folder, flag bitmask and tag string. */
  datatype StoreRequest = StoreRequest(folderId: int, flags: Bits, tags: string)

  /** What addMessage does: returns the new message, returns null (the message is a
      duplicate of one already delivered), or throws. */
  datatype StoreOutcome = Added(itemId: int) | Duplicate | StoreFailed

  /** A stored message as the adapter records it. */
  datatype Message = Message(itemId: int, folderId: int, flags: Bits, tags: string)

  /** A remote folder lookup: found, null, or an exception. */
  datatype RemoteLookup = RemoteFound(folderId: string) | RemoteMissing | RemoteError

  /** One call of ZMailbox.addMessage on a remote mailbox. */
  datatype RemoteAdd = RemoteAdd(folderId: string, flags: Bits)

  /** How the recipient's mailbox, the remote mailboxes behind its mountpoints and the
      mail transport answer. The answers of the stores and of the transport may depend
      on the calls made before (that is how duplicates are recognised). */
  datatype MailboxEnv = MailboxEnv(
    folderByPath: string -> Option<FolderMatch>,                  // getFolderByPathLongestMatch under the user root; None: throws
    tagByName: string -> Option<int>,                             // getTagByName(name).getId(); None: throws
    flagById: int -> Option<Bits>,                                // getFlagById(id).getBitmask(); None: throws
    store: (seq<StoreRequest>, StoreRequest) -> StoreOutcome,     // addMessage, given the earlier calls
    remoteSession: MountRef -> bool,                              // getRemoteZMailbox succeeds
    remoteFolder: MountRef -> RemoteLookup,                       // getFolderById(owner:remoteId) on it
    remoteSubfolder: (string, string) -> RemoteLookup,            // getSubFolderByPath(path) of that folder
    remoteAccepts: (seq<RemoteAdd>, RemoteAdd) -> bool,           // remote addMessage does not throw
    redirectSends: (seq<string>, string) -> bool)                 // new InternetAddress(addr) and Transport.send succeed

  /** The calls made to the collaborators so far. */
  datatype World = World(stored: seq<StoreRequest>, remoteAdds: seq<RemoteAdd>, redirects: seq<string>)

  /** The recipient's mailbox together with the remote mailboxes and the transport
      reached from it; each method is one call and is logged. */
  class Collaborators {
    const env: MailboxEnv
    var stored: seq<StoreRequest>
    var remoteAdds: seq<RemoteAdd>
    var redirects: seq<string>

    constructor (env: MailboxEnv, history: seq<StoreRequest>)
      ensures this.env == env && Log() == World(history, [], [])
    {
      this.env := env;
      stored, remoteAdds, redirects := history, [], [];
    }

    function Log(): World
      reads this
    {
      World(stored, remoteAdds, redirects)
    }

    method AddMessage(req: StoreRequest) returns (outcome: StoreOutcome)
      modifies this
      ensures Log() == old(Log()).(stored := old(stored) + [req])
      ensures outcome == env.store(old(stored), req)
    {
      outcome := env.store(stored, req);
      stored := stored + [req];
    }

    method AddRemoteMessage(add: RemoteAdd) returns (accepted: bool)
      modifies this
      ensures Log() == old(Log()).(remoteAdds := old(remoteAdds) + [add])
      ensures accepted == env.remoteAccepts(old(remoteAdds), add)
    {
      accepted := env.remoteAccepts(remoteAdds, add);
      remoteAdds := remoteAdds + [add];
    }

    method Send(address: string) returns (sent: bool)
      modifies this
      ensures Log() == old(Log()).(redirects := old(redirects) + [address])
      ensures sent == env.redirectSends(old(redirects), address)
    {
      sent := env.redirectSends(redirects, address);
      redirects := redirects + [address];
    }
  }

  // ----------------------------------------------------------------- spam

  /** The process-wide spam configuration: the header set by the spam detector and,
      optionally, the compiled pattern its value must match in full (Matcher.matches). */
  datatype SpamConfig = SpamConfig(header: Option<string>, pattern: Option<string -> bool>)

  /** The message being filtered: the values of each header (none when absent). */
  datatype ParsedMessage = ParsedMessage(headers: string -> seq<string>)

  /** The constructor's spam verdict: never without a configured header or without that
      header in the message; with a pattern, whether the header's first value matches it
      in full; without one, the header's presence alone. */
  function SpamVerdict(config: SpamConfig, pm: ParsedMessage): (spam: bool)
    ensures config.header.None? ==> !spam
    ensures config.header.Some? && pm.headers(config.header.value) == [] ==> !spam
    ensures config.header.Some? && pm.headers(config.header.value) != [] && config.pattern.Some? ==>
              (spam <==> config.pattern.value(pm.headers(config.header.value)[0]))
    ensures config.header.Some? && pm.headers(config.header.value) != [] && config.pattern.None? ==> spam
  {
    match config.header
    case None => false
    case Some(name) =>
      var values := pm.headers(name);
      if values == [] then false
      else match config.pattern
        case None => true
        case Some(matches) => matches(values[0])
  }

  // -------------------------------------------------- the filing rules

  /** What every store of one delivery uses: flags and tags are computed from the same
      actions each time, so they are the same for every store. */
  datatype Ctx = Ctx(env: MailboxEnv, isSpam: bool, flags: Bits, tags: string)

  function ContextOf(env: MailboxEnv, isSpam: bool, actions: seq<Action>): Ctx
  {
    Ctx(env, isSpam, FlagBitmask(env.flagById, BitmaskUnread, actions), TagsString(env.tagByName, actions))
  }

  /** doDefaultFiling's folder: Spam for spam, Inbox otherwise. */
  function DefaultFolder(isSpam: bool): int
  {
    if isSpam then IdFolderSpam else IdFolderInbox
  }

  function MessageOf(itemId: int, req: StoreRequest): Message
  {
    Message(itemId, req.folderId, req.flags, req.tags)
  }

  datatype StoreResult = StoreResult(world: World, messages: seq<Message>, outcome: StoreOutcome)

  /** addMessage(folderId): one store call, whose answer is the outcome; a returned message
      is recorded. */
  function LocalStore(ctx: Ctx, folderId: int, w: World, msgs: seq<Message>): (r: StoreResult)
    ensures r.world == w.(stored := w.stored + [StoreRequest(folderId, ctx.flags, ctx.tags)])
    ensures r.outcome == ctx.env.store(w.stored, StoreRequest(folderId, ctx.flags, ctx.tags))
    ensures r.messages == msgs + (if r.outcome.Added? then [Message(r.outcome.itemId, folderId, ctx.flags, ctx.tags)] else [])
  {
    var req := StoreRequest(folderId, ctx.flags, ctx.tags);
    var outcome := ctx.env.store(w.stored, req);
    StoreResult(w.(stored := w.stored + [req]), if outcome.Added? then msgs + [MessageOf(outcome.itemId, req)] else msgs, outcome)
  }

  /** What one delivery action leaves for the rest: go on, stop because of a duplicate,
      or stop because an exception escapes. */
  datatype StepStatus = Continue | Halt | Fail

  datatype StepResult = StepResult(world: World, messages: seq<Message>, status: StepStatus)

  /** A store whose null result stops the walk (Keep and local FileInto). */
  function HaltingStore(ctx: Ctx, folderId: int, w: World, msgs: seq<Message>): StepResult
  {
    var s := LocalStore(ctx, folderId, w, msgs);
    StepResult(s.world, s.messages,
               match s.outcome
               case Added(_) => Continue
               case Duplicate => Halt
               case StoreFailed => Fail)
  }

  /** The remote folder a FileInto to a mountpoint files into, or None when any step of
      the lookup fails (no session, remote folder missing or erroring, subfolder missing). */
  function RemoteTarget(env: MailboxEnv, mount: MountRef, remainingPath: Option<string>): Option<string>
  {
    if !env.remoteSession(mount) then None
    else match env.remoteFolder(mount)
      case RemoteFound(id) =>
        if remainingPath.None? then Some(id)
        else (match env.remoteSubfolder(id, remainingPath.value)
              case RemoteFound(sub) => Some(sub)
              case _ => None)
      case _ => None
  }

  function FileIntoStep(ctx: Ctx, path: string, w: World, msgs: seq<Message>): StepResult
  {
    match ctx.env.folderByPath(path)
    case None => StepResult(w, msgs, Fail)
    case Some(FolderMatch(folder, remainingPath)) =>
      if folder.mount.Some? then
        match RemoteTarget(ctx.env, folder.mount.value, remainingPath)
        case Some(remoteId) =>
          var add := RemoteAdd(remoteId, ctx.flags);
          var w' := w.(remoteAdds := w.remoteAdds + [add]);
          if ctx.env.remoteAccepts(w.remoteAdds, add) then StepResult(w', msgs, Continue)
          else HaltingStore(ctx, IdFolderInbox, w', msgs)
        case None => HaltingStore(ctx, IdFolderInbox, w, msgs)
      else if remainingPath.Some? && remainingPath.value != "" then HaltingStore(ctx, IdFolderInbox, w, msgs)
      else HaltingStore(ctx, folder.id, w, msgs)
  }

  function RedirectStep(ctx: Ctx, address: string, w: World, msgs: seq<Message>): StepResult
  {
    var w' := w.(redirects := w.redirects + [address]);
    if ctx.env.redirectSends(w.redirects, address) then StepResult(w', msgs, Continue)
    else
      var s := LocalStore(ctx, IdFolderInbox, w', msgs);
      StepResult(s.world, s.messages, if s.outcome.StoreFailed? then Fail else Continue)
  }

  /** One delivery action of executeActions' loop. It makes at most one local store call and
      keeps the calls made before; only a Redirect sends and only a FileInto adds remotely. */
  function Step(ctx: Ctx, a: Action, w: World, msgs: seq<Message>): (r: StepResult)
    requires InFamily(a, Delivery)
    ensures |w.stored| <= |r.world.stored| <= |w.stored| + 1 && r.world.stored[..|w.stored|] == w.stored
    ensures !a.Redirect? ==> r.world.redirects == w.redirects
    ensures !a.FileInto? ==> r.world.remoteAdds == w.remoteAdds
    ensures a.Redirect? ==> r.status != Halt
  {
    match a
    case Keep(isImplicit) => HaltingStore(ctx, if isImplicit then DefaultFolder(ctx.isSpam) else IdFolderInbox, w, msgs)
    case FileInto(path) => FileIntoStep(ctx, path, w, msgs)
    case Redirect(address) => RedirectStep(ctx, address, w, msgs)
  }

  /** The status executeActions ends with: normal return (with or without the
      duplicate flag raised) or a thrown SieveException. */
  datatype Status = Completed | DuplicateHalt | Failed

  datatype Run = Run(world: World, messages: seq<Message>, status: Status)

  predicate AllDelivery(acts: seq<Action>)
  {
    forall k :: 0 <= k < |acts| ==> InFamily(acts[k], Delivery)
  }

  /** The delivery actions walked in order until one halts or fails. Each action makes at
      most one local store call and sends at most once. */
  function Deliver(ctx: Ctx, acts: seq<Action>, w: World, msgs: seq<Message>): (r: Run)
    requires AllDelivery(acts)
    ensures |w.stored| <= |r.world.stored| <= |w.stored| + |acts|
    ensures |w.redirects| <= |r.world.redirects| <= |w.redirects| + |acts|
    decreases |acts|
  {
    if |acts| == 0 then Run(w, msgs, Completed)
    else
      var r := Step(ctx, acts[0], w, msgs);
      match r.status
      case Continue => Deliver(ctx, acts[1..], r.world, r.messages)
      case Halt => Run(r.world, r.messages, DuplicateHalt)
      case Fail => Run(r.world, r.messages, Failed)
  }

  /** executeActions: nothing for an empty action list (a discard); default filing when
      there are actions but none of them delivers; otherwise the delivery actions in order. */
  function Execute(env: MailboxEnv, isSpam: bool, actions: seq<Action>, w: World, msgs: seq<Message>): (r: Run)
    ensures |actions| == 0 ==> r == Run(w, msgs, Completed)
    ensures |actions| > 0 ==> |w.stored| < |r.world.stored| || DeliveryActions(actions) != []
    ensures |r.world.stored| <= |w.stored| + if DeliveryActions(actions) == [] then 1 else |DeliveryActions(actions)|
  {
    if |actions| == 0 then Run(w, msgs, Completed)
    else
      var ctx := ContextOf(env, isSpam, actions);
      var deliveryActions := DeliveryActions(actions);
      if |deliveryActions| == 0 then
        var s := LocalStore(ctx, DefaultFolder(isSpam), w, msgs);
        Run(s.world, s.messages,
            match s.outcome
            case Added(_) => Completed
            case Duplicate => DuplicateHalt
            case StoreFailed => Failed)
      else Deliver(ctx, deliveryActions, w, msgs)
  }

  // ------------------------------------------- what the filing rules promise

  /** An empty action list stores nothing, files nothing remotely, sends nothing and
      records nothing. */
  lemma EmptyActionsDiscard(env: MailboxEnv, isSpam: bool, w: World, msgs: seq<Message>)
    ensures Execute(env, isSpam, [], w, msgs) == Run(w, msgs, Completed)
  {
  }

  /** Actions without any delivery action still deliver: exactly one store, into Spam for
      spam and into Inbox otherwise, and nothing else. */
  lemma TagFlagOnlyFilesOnce(env: MailboxEnv, isSpam: bool, actions: seq<Action>, w: World, msgs: seq<Message>)
    requires |actions| > 0 && DeliveryActions(actions) == []
    ensures var r := Execute(env, isSpam, actions, w, msgs);
      var ctx := ContextOf(env, isSpam, actions);
      && r.world == w.(stored := w.stored + [StoreRequest(if isSpam then IdFolderSpam else IdFolderInbox, ctx.flags, ctx.tags)])
      && (r.status == Failed <==> env.store(w.stored, r.world.stored[|w.stored|]).StoreFailed?)
      && |msgs| <= |r.messages| <= |msgs| + 1
  {
  }

  /** An explicit Keep stores into Inbox whatever the spam verdict; an implicit Keep uses
      default filing. A Keep halts the walk exactly when the store reports a duplicate and
      fails exactly when the store throws. */
  lemma KeepTargets(ctx: Ctx, isImplicit: bool, w: World, msgs: seq<Message>)
    ensures var r := Step(ctx, Keep(isImplicit), w, msgs);
      var req := StoreRequest(if isImplicit then DefaultFolder(ctx.isSpam) else IdFolderInbox, ctx.flags, ctx.tags);
      && r.world == w.(stored := w.stored + [req])
      && (r.status == Halt <==> ctx.env.store(w.stored, req).Duplicate?)
      && (r.status == Fail <==> ctx.env.store(w.stored, req).StoreFailed?)
  {
  }

  /** Where a FileInto goes. A lookup that throws stops the delivery; a plain folder with
      an unmatched rest of the path, and a mountpoint whose remote folder cannot be
      reached or refuses the message, file into Inbox; a plain folder fully matched files
      into itself; a mountpoint whose remote folder takes the message stores nothing locally.
      Whenever it stores locally, it halts the walk exactly when that store reports a
      duplicate and fails exactly when that store throws. */
  lemma FileIntoRouting(ctx: Ctx, path: string, w: World, msgs: seq<Message>)
    ensures var r := Step(ctx, FileInto(path), w, msgs);
      var found := ctx.env.folderByPath(path);
      && (found.None? ==> r == StepResult(w, msgs, Fail))
      && (found.Some? && found.value.folder.mount.None? ==>
            var rest := found.value.remainingPath;
            var req := StoreRequest(if rest.Some? && rest.value != "" then IdFolderInbox else found.value.folder.id,
                                    ctx.flags, ctx.tags);
            && r.world == w.(stored := w.stored + [req])
            && (r.status == Halt <==> ctx.env.store(w.stored, req).Duplicate?)
            && (r.status == Fail <==> ctx.env.store(w.stored, req).StoreFailed?))
      && (found.Some? && found.value.folder.mount.Some? &&
          RemoteTarget(ctx.env, found.value.folder.mount.value, found.value.remainingPath).None? ==>
            var req := StoreRequest(IdFolderInbox, ctx.flags, ctx.tags);
            && r.world == w.(stored := w.stored + [req])
            && (r.status == Halt <==> ctx.env.store(w.stored, req).Duplicate?)
            && (r.status == Fail <==> ctx.env.store(w.stored, req).StoreFailed?))
      && (found.Some? && found.value.folder.mount.Some? &&
          RemoteTarget(ctx.env, found.value.folder.mount.value, found.value.remainingPath).Some? ==>
            var add := RemoteAdd(RemoteTarget(ctx.env, found.value.folder.mount.value, found.value.remainingPath).value, ctx.flags);
            && r.world.remoteAdds == w.remoteAdds + [add]
            && (ctx.env.remoteAccepts(w.remoteAdds, add) ==> r == StepResult(w.(remoteAdds := w.remoteAdds + [add]), msgs, Continue))
            && (!ctx.env.remoteAccepts(w.remoteAdds, add) ==>
                  var req := StoreRequest(IdFolderInbox, ctx.flags, ctx.tags);
                  && r.world.stored == w.stored + [req]
                  && (r.status == Halt <==> ctx.env.store(w.stored, req).Duplicate?)
                  && (r.status == Fail <==> ctx.env.store(w.stored, req).StoreFailed?)))
  {
  }

  /** A Redirect is attempted once; when it fails the message is stored into Inbox and the
      result of that store is ignored, so a Redirect never halts the walk. */
  lemma RedirectNeverHalts(ctx: Ctx, address: string, w: World, msgs: seq<Message>)
    ensures var r := Step(ctx, Redirect(address), w, msgs);
      && r.status != Halt
      && r.world.redirects == w.redirects + [address]
      && r.world.stored == w.stored + (if ctx.env.redirectSends(w.redirects, address) then []
                                       else [StoreRequest(IdFolderInbox, ctx.flags, ctx.tags)])
  {
  }

  /** The action made exactly one local store call, and the store answered it with a duplicate. */
  predicate StoredDuplicate(ctx: Ctx, w: World, r: StepResult)
  {
    |r.world.stored| == |w.stored| + 1 && ctx.env.store(w.stored, r.world.stored[|w.stored|]) == Duplicate
  }

  /** A delivery action halts the walk exactly when it is a Keep or a FileInto whose one
      local store call was answered with a duplicate; a halting step records nothing. */
  lemma HaltMeansDuplicate(ctx: Ctx, a: Action, w: World, msgs: seq<Message>)
    requires InFamily(a, Delivery)
    ensures var r := Step(ctx, a, w, msgs);
      && (r.status == Halt <==> !a.Redirect? && StoredDuplicate(ctx, w, r))
      && (r.status == Halt ==> r.messages == msgs)
  {
    var r := Step(ctx, a, w, msgs);
    match a
    case Keep(isImplicit) =>
      KeepTargets(ctx, isImplicit, w, msgs);
    case FileInto(path) =>
      FileIntoRouting(ctx, path, w, msgs);
    case Redirect(address) =>
  }

  /** A Keep or FileInto whose local store answers with a duplicate ends the walk there: the
      later delivery actions are not performed. */
  lemma DuplicateEndsWalk(ctx: Ctx, a: Action, rest: seq<Action>, w: World, msgs: seq<Message>)
    requires (a.Keep? || a.FileInto?) && AllDelivery(rest)
    requires StoredDuplicate(ctx, w, Step(ctx, a, w, msgs))
    ensures AllDelivery([a] + rest)
    ensures var r := Step(ctx, a, w, msgs); Deliver(ctx, [a] + rest, w, msgs) == Run(r.world, r.messages, DuplicateHalt)
  {
    HaltMeansDuplicate(ctx, a, w, msgs);
    assert ([a] + rest)[0] == a;
    assert forall k :: 1 <= k < |[a] + rest| ==> ([a] + rest)[k] == rest[k - 1];
  }

  /** The case a user meets most: a FileInto to an existing local folder whose store answers
      with a duplicate stops the walk, and the later delivery actions are not performed. */
  lemma LocalFileIntoDuplicateEndsWalk(ctx: Ctx, path: string, rest: seq<Action>, w: World, msgs: seq<Message>)
    requires AllDelivery(rest)
    requires ctx.env.folderByPath(path).Some? && ctx.env.folderByPath(path).value.folder.mount.None?
    requires var found := ctx.env.folderByPath(path).value;
      var target := if found.remainingPath.Some? && found.remainingPath.value != "" then IdFolderInbox else found.folder.id;
      ctx.env.store(w.stored, StoreRequest(target, ctx.flags, ctx.tags)).Duplicate?
    ensures AllDelivery([FileInto(path)] + rest)
    ensures Deliver(ctx, [FileInto(path)] + rest, w, msgs).status == DuplicateHalt
    ensures Deliver(ctx, [FileInto(path)] + rest, w, msgs).world.stored == Step(ctx, FileInto(path), w, msgs).world.stored
  {
    FileIntoRouting(ctx, path, w, msgs);
    DuplicateEndsWalk(ctx, FileInto(path), rest, w, msgs);
  }

  /** Once the walk halts (duplicate) or fails, no later delivery action is looked at. */
  lemma {:induction false} StoppedWalkIgnoresLaterActions(ctx: Ctx, xs: seq<Action>, ys: seq<Action>, w: World, msgs: seq<Message>)
    requires AllDelivery(xs) && AllDelivery(ys)
    requires Deliver(ctx, xs, w, msgs).status != Completed
    ensures AllDelivery(xs + ys)
    ensures Deliver(ctx, xs + ys, w, msgs) == Deliver(ctx, xs, w, msgs)
    decreases |xs|
  {
    assert AllDelivery(xs + ys) by {
      forall k | 0 <= k < |xs + ys| ensures InFamily((xs + ys)[k], Delivery) {
        if k < |xs| { assert (xs + ys)[k] == xs[k]; } else { assert (xs + ys)[k] == ys[k - |xs|]; }
      }
    }
    assert (xs + ys)[0] == xs[0];
    var r := Step(ctx, xs[0], w, msgs);
    if r.status == Continue {
      assert (xs + ys)[1..] == xs[1..] + ys;
      StoppedWalkIgnoresLaterActions(ctx, xs[1..], ys, r.world, r.messages);
    }
  }

  /** A walk that completes hands over to the next actions unchanged. */
  lemma {:induction false} CompletedWalkContinues(ctx: Ctx, xs: seq<Action>, ys: seq<Action>, w: World, msgs: seq<Message>)
    requires AllDelivery(xs) && AllDelivery(ys)
    requires Deliver(ctx, xs, w, msgs).status == Completed
    ensures AllDelivery(xs + ys)
    ensures var r := Deliver(ctx, xs, w, msgs); Deliver(ctx, xs + ys, w, msgs) == Deliver(ctx, ys, r.world, r.messages)
    decreases |xs|
  {
    assert AllDelivery(xs + ys) by {
      forall k | 0 <= k < |xs + ys| ensures InFamily((xs + ys)[k], Delivery) {
        if k < |xs| { assert (xs + ys)[k] == xs[k]; } else { assert (xs + ys)[k] == ys[k - |xs|]; }
      }
    }
    if |xs| == 0 {
      assert xs + ys == ys;
    } else {
      assert (xs + ys)[0] == xs[0];
      var r := Step(ctx, xs[0], w, msgs);
      assert (xs + ys)[1..] == xs[1..] + ys;
      CompletedWalkContinues(ctx, xs[1..], ys, r.world, r.messages);
    }
  }

  // -------------------------------------- every stored message is recorded

  /** The messages recorded for the store calls `reqs`, made after the calls `history`:
      one per call the store answered with a message, in call order. */
  function Recorded(store: (seq<StoreRequest>, StoreRequest) -> StoreOutcome, history: seq<StoreRequest>,
                    reqs: seq<StoreRequest>): seq<Message>
    decreases |reqs|
  {
    if |reqs| == 0 then []
    else
      var outcome := store(history, reqs[0]);
      (if outcome.Added? then [MessageOf(outcome.itemId, reqs[0])] else []) + Recorded(store, history + [reqs[0]], reqs[1..])
  }

  lemma {:induction false} RecordedAppend(store: (seq<StoreRequest>, StoreRequest) -> StoreOutcome, history: seq<StoreRequest>,
                                          xs: seq<StoreRequest>, ys: seq<StoreRequest>)
    ensures Recorded(store, history, xs + ys) == Recorded(store, history, xs) + Recorded(store, history + xs, ys)
    decreases |xs|
  {
    if |xs| == 0 {
      assert xs + ys == ys;
      assert history + xs == history;
    } else {
      assert (xs + ys)[0] == xs[0];
      assert (xs + ys)[1..] == xs[1..] + ys;
      assert history + [xs[0]] + xs[1..] == history + xs;
      RecordedAppend(store, history + [xs[0]], xs[1..], ys);
    }
  }

  /** From (w, msgs) to (w', msgs') only store calls were appended, each with the delivery's
      flags and tags, and exactly the messages the store returned for them were recorded. */
  ghost predicate Records(ctx: Ctx, w: World, msgs: seq<Message>, w': World, msgs': seq<Message>)
  {
    && |w.stored| <= |w'.stored| && w'.stored[..|w.stored|] == w.stored
    && msgs' == msgs + Recorded(ctx.env.store, w.stored, w'.stored[|w.stored|..])
    && forall k :: |w.stored| <= k < |w'.stored| ==> w'.stored[k].flags == ctx.flags && w'.stored[k].tags == ctx.tags
  }

  lemma RecordsTransitive(ctx: Ctx, w1: World, m1: seq<Message>, w2: World, m2: seq<Message>, w3: World, m3: seq<Message>)
    requires Records(ctx, w1, m1, w2, m2) && Records(ctx, w2, m2, w3, m3)
    ensures Records(ctx, w1, m1, w3, m3)
  {
    var s1, s2, s3 := w1.stored, w2.stored, w3.stored;
    assert s3[..|s1|] == s2[..|s1|] by { assert s3[..|s2|][..|s1|] == s3[..|s1|]; }
    assert s3[|s1|..] == s2[|s1|..] + s3[|s2|..] by {
      assert s3 == s3[..|s2|] + s3[|s2|..];
    }
    assert s1 + s2[|s1|..] == s2;
    RecordedAppend(ctx.env.store, s1, s2[|s1|..], s3[|s2|..]);
  }

  lemma LocalStoreRecords(ctx: Ctx, folderId: int, w: World, msgs: seq<Message>)
    ensures var s := LocalStore(ctx, folderId, w, msgs); Records(ctx, w, msgs, s.world, s.messages)
  {
    var s := LocalStore(ctx, folderId, w, msgs);
    assert s.world.stored[..|w.stored|] == w.stored;
    assert s.world.stored[|w.stored|..] == [StoreRequest(folderId, ctx.flags, ctx.tags)];
  }

  lemma StepRecords(ctx: Ctx, a: Action, w: World, msgs: seq<Message>)
    requires InFamily(a, Delivery)
    ensures var r := Step(ctx, a, w, msgs); Records(ctx, w, msgs, r.world, r.messages)
  {
    var r := Step(ctx, a, w, msgs);
    match a
    case Keep(isImplicit) =>
      LocalStoreRecords(ctx, if isImplicit then DefaultFolder(ctx.isSpam) else IdFolderInbox, w, msgs);
    case FileInto(path) =>
      if r.world.stored == w.stored {
        assert r.messages == msgs;
        assert r.world.stored[..|w.stored|] == w.stored;
        assert r.world.stored[|w.stored|..] == [];
      } else {
        var found := ctx.env.folderByPath(path).value;
        var w' := if found.folder.mount.Some? then r.world.(stored := w.stored) else w;
        var target := r.world.stored[|w.stored|].folderId;
        assert w'.stored == w.stored;
        LocalStoreRecords(ctx, target, w', msgs);
      }
    case Redirect(address) =>
      if !ctx.env.redirectSends(w.redirects, address) {
        LocalStoreRecords(ctx, IdFolderInbox, w.(redirects := w.redirects + [address]), msgs);
      } else {
        assert r.world.stored[..|w.stored|] == w.stored;
        assert r.world.stored[|w.stored|..] == [];
      }
  }

  /** The walk records exactly the messages the store returned, in order, and every store
      uses the delivery's flag bitmask and tag string. */
  lemma {:induction false} DeliverRecords(ctx: Ctx, acts: seq<Action>, w: World, msgs: seq<Message>)
    requires AllDelivery(acts)
    ensures var r := Deliver(ctx, acts, w, msgs); Records(ctx, w, msgs, r.world, r.messages)
    decreases |acts|
  {
    if |acts| == 0 {
      assert w.stored[..|w.stored|] == w.stored;
      assert w.stored[|w.stored|..] == [];
    } else {
      var r := Step(ctx, acts[0], w, msgs);
      StepRecords(ctx, acts[0], w, msgs);
      if r.status == Continue {
        DeliverRecords(ctx, acts[1..], r.world, r.messages);
        var d := Deliver(ctx, acts[1..], r.world, r.messages);
        RecordsTransitive(ctx, w, msgs, r.world, r.messages, d.world, d.messages);
      }
    }
  }

  /** executeActions records exactly the messages the store returned, in call order, and
      every store it makes carries the flag bitmask and tag string of the whole action list. */
  lemma ExecuteRecords(env: MailboxEnv, isSpam: bool, actions: seq<Action>, w: World, msgs: seq<Message>)
    ensures var r := Execute(env, isSpam, actions, w, msgs);
      Records(ContextOf(env, isSpam, actions), w, msgs, r.world, r.messages)
  {
    var ctx := ContextOf(env, isSpam, actions);
    if |actions| == 0 {
      assert w.stored[..|w.stored|] == w.stored;
      assert w.stored[|w.stored|..] == [];
    } else if |DeliveryActions(actions)| == 0 {
      LocalStoreRecords(ctx, DefaultFolder(isSpam), w, msgs);
    } else {
      DeliverRecords(ctx, DeliveryActions(actions), w, msgs);
    }
  }

  // ------------------------------------------------- loop-step helpers

  lemma TagIdsStep(tagByName: string -> Option<int>, t: seq<Action>, i: nat, ids: seq<int>)
    requires i < |t|
    requires ids + TagIds(tagByName, t[i..]) == TagIds(tagByName, t)
    ensures var ids' := if t[i].TagAction? && tagByName(t[i].tagName).Some? then ids + [tagByName(t[i].tagName).value] else ids;
      ids' + TagIds(tagByName, t[i + 1..]) == TagIds(tagByName, t)
  {
    assert t[i..][0] == t[i];
    assert t[i..][1..] == t[i + 1..];
  }

  /** getTags' StringBuilder: the first id is written alone, every later one after a ','. */
  lemma TagBufferStep(ids: seq<int>, id: int)
    ensures Join(IdStrings(ids + [id]), ',') ==
              if ids == [] then IntToString(id) else Join(IdStrings(ids), ',') + "," + IntToString(id)
  {
    assert IdStrings(ids + [id]) == IdStrings(ids) + [IntToString(id)];
    if ids != [] {
      JoinSnoc(IdStrings(ids), IntToString(id), ',');
    } else {
      assert IdStrings(ids + [id]) == [IntToString(id)];
    }
  }

  lemma RewriteTokensStep(codec: AddressCodec, toks: seq<string>, j: nat, before: string, beforeAltered: bool,
                          after: string, afterAltered: bool)
    requires j < |toks|
    requires RewriteTokens(codec, toks) == Rewritten(before + RewriteTokens(codec, toks[j..]).text,
                                                     beforeAltered || RewriteTokens(codec, toks[j..]).altered)
    requires after == before + RewriteAddress(codec, toks[j]).text + (if j + 1 < |toks| then toks[j + 1] else "")
    requires afterAltered == (beforeAltered || RewriteAddress(codec, toks[j]).altered)
    ensures var next := if j + 1 < |toks| then j + 2 else j + 1;
      RewriteTokens(codec, toks) == Rewritten(after + RewriteTokens(codec, toks[next..]).text,
                                              afterAltered || RewriteTokens(codec, toks[next..]).altered)
  {
    var s := toks[j..];
    assert s[0] == toks[j];
    if j + 1 < |toks| {
      assert s[1] == toks[j + 1];
      assert s[2..] == toks[j + 2..];
    } else {
      assert toks[j + 1..] == [];
    }
  }

  lemma IdnValuesStep(codec: AddressCodec, headers: seq<string>, i: nat, before: seq<string>, after: seq<string>)
    requires i < |headers|
    requires before + IdnValues(codec, headers[i..]) == IdnValues(codec, headers)
    requires after == before + IdnValue(codec, headers[i])
    ensures after + IdnValues(codec, headers[i + 1..]) == IdnValues(codec, headers)
  {
    var v, rest := IdnValue(codec, headers[i]), IdnValues(codec, headers[i + 1..]);
    assert IdnValues(codec, headers[i..]) == v + rest by {
      assert headers[i..][0] == headers[i];
      assert headers[i..][1..] == headers[i + 1..];
    }
    AppendStep(before, v, rest, IdnValues(codec, headers), after);
  }

  /** One more store call adds to the recorded messages exactly the one it returned. */
  lemma {:induction false} RecordedSnoc(store: (seq<StoreRequest>, StoreRequest) -> StoreOutcome, baseline: seq<StoreRequest>,
                     before: seq<StoreRequest>, req: StoreRequest, after: seq<StoreRequest>)
    requires |baseline| <= |before| && before[..|baseline|] == baseline && after == before + [req]
    ensures |baseline| <= |after| && after[..|baseline|] == baseline
    ensures Recorded(store, baseline, after[|baseline|..]) ==
              Recorded(store, baseline, before[|baseline|..]) +
              (if store(before, req).Added? then [MessageOf(store(before, req).itemId, req)] else [])
  {
    var pre := before[|baseline|..];
    assert after[..|baseline|] == baseline by {
      assert after[..|before|] == before;
    }
    assert after[|baseline|..] == pre + [req];
    RecordedAppend(store, baseline, pre, [req]);
    assert baseline + pre == before;
    assert [req][1..] == [];
    assert Recorded(store, before, [req]) ==
             (if store(before, req).Added? then [MessageOf(store(before, req).itemId, req)] else []) +
             Recorded(store, before + [req], []);
  }

  lemma AppendStep<T>(before: seq<T>, v: seq<T>, rest: seq<T>, whole: seq<T>, after: seq<T>)
    requires before + (v + rest) == whole && after == before + v
    ensures after + rest == whole
  {
  }

  /** One turn of executeActions' loop. */
  lemma DeliverStep(ctx: Ctx, acts: seq<Action>, i: nat, w: World, msgs: seq<Message>, r: StepResult)
    requires AllDelivery(acts) && i < |acts|
    requires r == Step(ctx, acts[i], w, msgs)
    ensures AllDelivery(acts[i + 1..])
    ensures Deliver(ctx, acts[i..], w, msgs) ==
              match r.status
              case Continue => Deliver(ctx, acts[i + 1..], r.world, r.messages)
              case Halt => Run(r.world, r.messages, DuplicateHalt)
              case Fail => Run(r.world, r.messages, Failed)
  {
    assert acts[i..][0] == acts[i];
    assert acts[i..][1..] == acts[i + 1..];
  }

  // ------------------------------------------------------------ the class

  /** The adapter for one delivery. */
  class ZimbraMailAdapter {
    const services: Collaborators
    const message: ParsedMessage
    const recipient: string
    const codec: AddressCodec
    /** Whether the system spam detector marked the message as spam. */
    const isSpam: bool
    /** The actions to perform, as the rule engine added them. */
    var actions: seq<Action>
    /** The messages filed so far. */
    var messages: seq<Message>
    /** The store calls made before this adapter's first one. */
    ghost var baseline: seq<StoreRequest>

    /** The messages are exactly those the store returned for this adapter's calls. */
    ghost predicate Valid()
      reads this, services
    {
      && |baseline| <= |services.stored| && services.stored[..|baseline|] == baseline
      && messages == Recorded(services.env.store, baseline, services.stored[|baseline|..])
    }

    constructor (services: Collaborators, pm: ParsedMessage, recipient: string, config: SpamConfig, codec: AddressCodec)
      ensures this.services == services && message == pm && this.recipient == recipient && this.codec == codec
      ensures isSpam == SpamVerdict(config, pm)
      ensures actions == [] && messages == []
      ensures Valid()
    {
      this.services := services;
      message := pm;
      this.recipient := recipient;
      this.codec := codec;
      var spam := false;
      if config.header.Some? {
        var values := pm.headers(config.header.value);
        if values != [] {
          if config.pattern.Some? {
            spam := config.pattern.value(values[0]);
          } else {
            // presence of the header alone marks spam
            spam := true;
          }
        }
      }
      isSpam := spam;
      actions := [];
      messages := [];
      baseline := services.stored;
      new;
      assert services.stored[..|baseline|] == baseline;
      assert services.stored[|baseline|..] == [];
    }

    method AddAction(a: Action)
      modifies this`actions
      ensures actions == old(actions) + [a]
    {
      actions := actions + [a];
    }

    /** getProcessedMessages: every message the store returned for this delivery, in order. */
    function ProcessedMessages(): (r: seq<Message>)
      reads this, services
      requires Valid()
      ensures r == Recorded(services.env.store, baseline, services.stored[|baseline|..])
    {
      messages
    }

    ghost function Context(): Ctx
      reads this
    {
      ContextOf(services.env, isSpam, actions)
    }

    /** getFlagBitmask. */
    method GetFlagBitmask() returns (flagBits: Bits)
      ensures flagBits == FlagBitmask(services.env.flagById, BitmaskUnread, actions)
    {
      var tagFlag := TagFlagActions(actions);
      flagBits := BitmaskUnread;
      var i := 0;
      while i < |tagFlag|
        invariant 0 <= i <= |tagFlag|
        invariant ApplyFlags(services.env.flagById, flagBits, tagFlag[i..]) == FlagBitmask(services.env.flagById, BitmaskUnread, actions)
      {
        var a := tagFlag[i];
        assert tagFlag[i..][1..] == tagFlag[i + 1..];
        if a.FlagAction? {
          var flag := services.env.flagById(a.flagId);
          if flag.Some? {
            if a.isSetFlag {
              flagBits := flagBits + flag.value;
            } else {
              flagBits := flagBits - flag.value;
            }
          }
        }
        i := i + 1;
      }
    }

    /** getTags. */
    method GetTags() returns (tags: string)
      ensures tags == TagsString(services.env.tagByName, actions)
    {
      var tagFlag := TagFlagActions(actions);
      var tagsBuf: Option<string> := None;
      ghost var ids: seq<int> := [];
      var i := 0;
      while i < |tagFlag|
        invariant 0 <= i <= |tagFlag|
        invariant ids + TagIds(services.env.tagByName, tagFlag[i..]) == TagIds(services.env.tagByName, tagFlag)
        invariant tagsBuf == if ids == [] then None else Some(Join(IdStrings(ids), ','))
      {
        var a := tagFlag[i];
        TagIdsStep(services.env.tagByName, tagFlag, i, ids);
        if a.TagAction? {
          var tag := services.env.tagByName(a.tagName);
          if tag.Some? {
            var id := tag.value;
            TagBufferStep(ids, id);
            if tagsBuf.None? {
              tagsBuf := Some(IntToString(id));
            } else {
              tagsBuf := Some(tagsBuf.value + "," + IntToString(id));
            }
            ids := ids + [id];
          }
        }
        i := i + 1;
      }
      assert tagFlag[i..] == [];
      assert ids == TagIds(services.env.tagByName, tagFlag);
      assert ids == [] ==> Join(IdStrings(ids), ',') == "";
      tags := if tagsBuf.None? then "" else tagsBuf.value;
    }

    /** addMessage(folderId): store with the delivery's flags and tags; record the message
      if the store returned one. */
    method AddMessage(folderId: int) returns (outcome: StoreOutcome)
      requires Valid()
      modifies this`messages, services
      ensures Valid()
      ensures var s := LocalStore(Context(), folderId, old(services.Log()), old(messages));
        services.Log() == s.world && messages == s.messages && outcome == s.outcome
    {
      var flags := GetFlagBitmask();
      var tags := GetTags();
      var req := StoreRequest(folderId, flags, tags);
      ghost var before := services.stored;
      outcome := services.AddMessage(req);
      if outcome.Added? {
        messages := messages + [MessageOf(outcome.itemId, req)];
      }
      RecordedSnoc(services.env.store, baseline, before, req, services.stored);
    }

    /** doDefaultFiling. */
    method DoDefaultFiling() returns (outcome: StoreOutcome)
      requires Valid()
      modifies this`messages, services
      ensures Valid()
      ensures var s := LocalStore(Context(), DefaultFolder(isSpam), old(services.Log()), old(messages));
        services.Log() == s.world && messages == s.messages && outcome == s.outcome
    {
      var folderId := if isSpam then IdFolderSpam else IdFolderInbox;
      outcome := AddMessage(folderId);
    }

    /** executeActions. */
    method ExecuteActions() returns (status: Status)
      requires Valid()
      modifies this`messages, services
      ensures Valid()
      ensures var r := Execute(services.env, isSpam, actions, old(services.Log()), old(messages));
        services.Log() == r.world && messages == r.messages && status == r.status
    {
      if |actions| == 0 {
        // an explicit discard: the rule engine returned no action at all
        return Completed;
      }
      var deliveryActions := DeliveryActions(actions);
      if |deliveryActions| == 0 {
        // tag/flag actions alone do not suppress delivery
        var outcome := DoDefaultFiling();
        return match outcome
          case Added(_) => Completed
          case Duplicate => DuplicateHalt
          case StoreFailed => Failed;
      }
      status := Walk(deliveryActions);
    }

    /** executeActions' loop over the delivery actions, stopped by a duplicate or an exception. */
    method Walk(deliveryActions: seq<Action>) returns (status: Status)
      requires Valid() && AllDelivery(deliveryActions)
      modifies this`messages, services
      ensures Valid()
      ensures var r := Deliver(Context(), deliveryActions, old(services.Log()), old(messages));
        services.Log() == r.world && messages == r.messages && status == r.status
    {
      ghost var ctx := Context();
      ghost var start := Deliver(ctx, deliveryActions, services.Log(), messages);
      var dup := false;
      var i := 0;
      while i < |deliveryActions|
        invariant 0 <= i <= |deliveryActions|
        invariant Valid()
        invariant !dup
        invariant start == Deliver(ctx, deliveryActions[i..], services.Log(), messages)
      {
        var action := deliveryActions[i];
        ghost var w0, m0 := services.Log(), messages;
        var step := Perform(action);
        DeliverStep(ctx, deliveryActions, i, w0, m0, StepResult(services.Log(), messages, step));
        if step == Fail {
          return Failed;
        }
        if step == Halt {
          dup := true;
          break;
        }
        i := i + 1;
      }
      if dup {
        return DuplicateHalt;
      }
      assert deliveryActions[i..] == [];
      return Completed;
    }

    /** One turn of executeActions' loop: the branch for the action's kind. */
    method Perform(action: Action) returns (step: StepStatus)
      requires Valid() && InFamily(action, Delivery)
      modifies this`messages, services
      ensures Valid()
      ensures Step(Context(), action, old(services.Log()), old(messages)) == StepResult(services.Log(), messages, step)
    {
      if action.Keep? {
        step := Keep(action.isImplicit);
      } else if action.FileInto? {
        step := FileInto(action.destination);
      } else if action.Redirect? {
        step := Redirect(action.address);
      } else {
        // "unknown action": the delivery actions hold only Keep, FileInto and Redirect
        assert false;
      }
    }

    /** The Keep branch of executeActions' loop. */
    method Keep(isImplicit: bool) returns (step: StepStatus)
      requires Valid()
      modifies this`messages, services
      ensures Valid()
      ensures Step(Context(), Action.Keep(isImplicit), old(services.Log()), old(messages))
              == StepResult(services.Log(), messages, step)
    {
      var outcome;
      if isImplicit {
        // no rule matched: the spam verdict decides
        outcome := DoDefaultFiling();
      } else {
        // an explicit keep files into Inbox regardless of spam
        outcome := AddMessage(IdFolderInbox);
      }
      step := if outcome.StoreFailed? then Fail else if outcome.Duplicate? then Halt else Continue;
    }

    /** The Redirect branch of executeActions' loop. */
    method Redirect(address: string) returns (step: StepStatus)
      requires Valid()
      modifies this`messages, services
      ensures Valid()
      ensures Step(Context(), Action.Redirect(address), old(services.Log()), old(messages))
              == StepResult(services.Log(), messages, step)
    {
      var sent := services.Send(address);
      step := Continue;
      if !sent {
        // a failed redirect files into Inbox; a duplicate there is not a reason to stop
        var outcome := AddMessage(IdFolderInbox);
        step := if outcome.StoreFailed? then Fail else Continue;
      }
    }

    /** The FileInto branch of executeActions' loop. */
    method FileInto(localPath: string) returns (step: StepStatus)
      requires Valid()
      modifies this`messages, services
      ensures Valid()
      ensures Step(Context(), Action.FileInto(localPath), old(services.Log()), old(messages))
              == StepResult(services.Log(), messages, step)
    {
      var folderAndPath := services.env.folderByPath(localPath);
      if folderAndPath.None? {
        return Fail;
      }
      var folder := folderAndPath.value.folder;
      var remainingPath := folderAndPath.value.remainingPath;
      var folderId := folder.id;
      var filedRemotely := false;
      if folder.mount.Some? {
        filedRemotely := FileRemotely(folder.mount.value, remainingPath);
        if !filedRemotely {
          folderId := IdFolderInbox;
        }
      } else if remainingPath.Some? && remainingPath.value != "" {
        // only part of the path matched
        folderId := IdFolderInbox;
      }
      step := Continue;
      if !filedRemotely {
        var outcome := AddMessage(folderId);
        step := if outcome.StoreFailed? then Fail else if outcome.Duplicate? then Halt else Continue;
      }
    }

    /** The mountpoint part of the FileInto branch: look the remote folder (and the rest of
      the path below it) up and add the message there. False when any step fails, and the
      caller then files into Inbox. */
    method FileRemotely(mountpoint: MountRef, remainingPath: Option<string>) returns (filedRemotely: bool)
      requires Valid()
      modifies services
      ensures Valid()
      ensures match RemoteTarget(services.env, mountpoint, remainingPath)
        case None => services.Log() == old(services.Log()) && !filedRemotely
        case Some(id) =>
          var add := RemoteAdd(id, Context().flags);
          && services.Log() == old(services.Log()).(remoteAdds := old(services.remoteAdds) + [add])
          && filedRemotely == services.env.remoteAccepts(old(services.remoteAdds), add)
    {
      var remoteFolder := RemoteMissing;
      if services.env.remoteSession(mountpoint) {
        remoteFolder := services.env.remoteFolder(mountpoint);
        if remoteFolder.RemoteFound? && remainingPath.Some? {
          remoteFolder := services.env.remoteSubfolder(remoteFolder.folderId, remainingPath.value);
        }
      }
      filedRemotely := false;
      if remoteFolder.RemoteFound? {
        var flags := GetFlagBitmask();
        filedRemotely := services.AddRemoteMessage(RemoteAdd(remoteFolder.folderId, flags));
      }
    }

    /** handleIDN. */
    method HandleIdn(headerName: string, headers: seq<string>) returns (hdrs: seq<string>)
      ensures hdrs == IdnValues(codec, headers)
    {
      hdrs := [];
      var i := 0;
      while i < |headers|
        invariant 0 <= i <= |headers|
        invariant hdrs + IdnValues(codec, headers[i..]) == IdnValues(codec, headers)
      {
        var h := headers[i];
        ghost var before := hdrs;
        if Contains(h, AcePrefix) {
          var rewritten := RewriteHeaderValue(h);
          if rewritten.altered {
            hdrs := hdrs + [rewritten.text];
          }
        }
        // the original value is always kept
        hdrs := hdrs + [h];
        assert hdrs == before + IdnValue(codec, h);
        IdnValuesStep(codec, headers, i, before, hdrs);
        i := i + 1;
      }
      assert headers[i..] == [];
    }

    /** handleIDN's inner loop over the addresses of one header value. */
    method RewriteHeaderValue(h: string) returns (r: Rewritten)
      ensures r == RewriteTokens(codec, Tokens(h))
    {
      var toks := Tokens(h);
      var addrs := "";
      var altered := false;
      var j := 0;
      while j < |toks|
        invariant 0 <= j <= |toks|
        invariant RewriteTokens(codec, toks) == Rewritten(addrs + RewriteTokens(codec, toks[j..]).text,
                                                          altered || RewriteTokens(codec, toks[j..]).altered)
      {
        ghost var before, beforeAltered, j0 := addrs, altered, j;
        var address := toks[j];
        var delim := "";
        if j + 1 < |toks| {
          delim := toks[j + 1];
          j := j + 2;
        } else {
          j := j + 1;
        }
        var parsed := codec.parse(address);
        if parsed.None? {
          // an invalid address is put back as it was
          addrs := addrs + address + delim;
        } else {
          var addr := parsed.value.address;
          var unicodeAddr := codec.toUnicode(addr);
          if EqualsIgnoreCase(unicodeAddr, addr) {
            addrs := addrs + address + delim;
          } else {
            altered := true;
            addrs := addrs + codec.render(parsed.value.(address := unicodeAddr)) + delim;
          }
        }
        assert addrs == before + RewriteAddress(codec, address).text + delim;
        RewriteTokensStep(codec, toks, j0, before, beforeAltered, addrs, altered);
      }
      assert toks[j..] == [];
      r := Rewritten(addrs, altered);
    }

    /** getHeader. */
    method GetHeader(name: string) returns (values: seq<string>)
      ensures values == HeaderValues(codec, message.headers(name), name)
    {
      var headers := message.headers(name);
      if headers != [] && Lower(name) in AddressHeaders {
        values := HandleIdn(name, headers);
      } else {
        values := headers;
      }
    }
  }
}

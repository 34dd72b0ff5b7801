/** The actions a Sieve script evaluation hands to the mail adapter, how the
    adapter splits them into delivery and tag/flag actions, and the flag
    bitmask and tag string it derives from the tag/flag actions
    (ZimbraMailAdapter.getDeliveryActions, getTagFlagActions, getFlagBitmask,
    getTags). */
module SieveActions {
  import opened Common
  import opened JavaText

  /** The action kinds produced by the rule engine. `OtherAction` stands for every
      kind outside the delivery and tag/flag families (reject, vacation, ...). */
  datatype Action =
    | Keep(isImplicit: bool)
    | FileInto(destination: string)
    | Redirect(address: string)
    | TagAction(tagName: string)
    | FlagAction(flagId: int, isSetFlag: bool)
    | OtherAction(kind: string)

  /** The two families the adapter selects from the list of actions. */
  datatype Family = Delivery | TagFlag

  predicate InFamily(a: Action, f: Family)
  {
    match f
    case Delivery => a.Keep? || a.FileInto? || a.Redirect?
    case TagFlag => a.TagAction? || a.FlagAction?
  }

  /** The actions of family `f`, in the order they appear in `actions`. */
  function Select(actions: seq<Action>, f: Family): (r: seq<Action>)
    ensures |r| <= |actions|
    ensures forall k :: 0 <= k < |r| ==> InFamily(r[k], f)
    ensures forall a :: multiset(r)[a] == if InFamily(a, f) then multiset(actions)[a] else 0
    decreases |actions|
  {
    if |actions| == 0 then []
    else
      var rest := Select(actions[1..], f);
      assert actions == [actions[0]] + actions[1..];
      if InFamily(actions[0], f) then [actions[0]] + rest else rest
  }

  /** getDeliveryActions: the Keep, FileInto and Redirect actions. */
  function DeliveryActions(actions: seq<Action>): (r: seq<Action>)
    ensures forall k :: 0 <= k < |r| ==> r[k].Keep? || r[k].FileInto? || r[k].Redirect?
    ensures forall a :: multiset(r)[a] == if a.Keep? || a.FileInto? || a.Redirect? then multiset(actions)[a] else 0
  {
    Select(actions, Delivery)
  }

  /** getTagFlagActions: the Tag and Flag actions. */
  function TagFlagActions(actions: seq<Action>): (r: seq<Action>)
    ensures forall k :: 0 <= k < |r| ==> r[k].TagAction? || r[k].FlagAction?
    ensures forall a :: multiset(r)[a] == if a.TagAction? || a.FlagAction? then multiset(actions)[a] else 0
  {
    Select(actions, TagFlag)
  }

  /** Selection keeps the input order: selecting from a concatenation concatenates the selections. */
  lemma {:induction false} SelectAppend(xs: seq<Action>, ys: seq<Action>, f: Family)
    ensures Select(xs + ys, f) == Select(xs, f) + Select(ys, f)
    decreases |xs|
  {
    if |xs| > 0 {
      assert (xs + ys)[1..] == xs[1..] + ys;
      SelectAppend(xs[1..], ys, f);
    } else {
      assert xs + ys == ys;
    }
  }

  /** No action is in both lists, and every action of the two families is in one of them. */
  lemma ClassificationPartition(actions: seq<Action>, a: Action)
    ensures !(InFamily(a, Delivery) && InFamily(a, TagFlag))
    ensures a in actions && (InFamily(a, Delivery) || InFamily(a, TagFlag)) ==>
              a in DeliveryActions(actions) || a in TagFlagActions(actions)
    ensures a in DeliveryActions(actions) ==> a in actions && InFamily(a, Delivery)
    ensures a in TagFlagActions(actions) ==> a in actions && InFamily(a, TagFlag)
  {
    var d := DeliveryActions(actions);
    var t := TagFlagActions(actions);
    assert multiset(d)[a] == if InFamily(a, Delivery) then multiset(actions)[a] else 0;
    assert multiset(t)[a] == if InFamily(a, TagFlag) then multiset(actions)[a] else 0;
  }

  // ---------------------------------------------------------------- flags

  /** A bit position of a Java `int`. */
  type BitIndex = i: nat | i < 32

  /** A Java `int` bitmask, as the set of positions of its 1-bits: `a | b` is `a + b`
      and `a & ~b` is `a - b`, for every 32-bit value. */
  type Bits = set<BitIndex>

  /** One flag action applied to the running bitmask: a flag id that does not
      resolve (getFlagById threw) leaves the bitmask alone; otherwise set ORs the
      flag's bits in and clear ANDs them out. Every other action leaves it alone. */
  function ApplyFlag(flagById: int -> Option<Bits>, bits: Bits, a: Action): Bits
  {
    if a.FlagAction? && flagById(a.flagId).Some? then
      if a.isSetFlag then bits + flagById(a.flagId).value else bits - flagById(a.flagId).value
    else bits
  }

  /** The flag actions of `actions` applied in order, starting from `bits`. */
  function ApplyFlags(flagById: int -> Option<Bits>, bits: Bits, actions: seq<Action>): Bits
    decreases |actions|
  {
    if |actions| == 0 then bits else ApplyFlags(flagById, ApplyFlag(flagById, bits, actions[0]), actions[1..])
  }

  /** getFlagBitmask: the unread bit, then every flag action in order. */
  function FlagBitmask(flagById: int -> Option<Bits>, unread: Bits, actions: seq<Action>): Bits
  {
    ApplyFlags(flagById, unread, TagFlagActions(actions))
  }

  lemma {:induction false} ApplyFlagsAppend(flagById: int -> Option<Bits>, bits: Bits, xs: seq<Action>, ys: seq<Action>)
    ensures ApplyFlags(flagById, bits, xs + ys) == ApplyFlags(flagById, ApplyFlags(flagById, bits, xs), ys)
    decreases |xs|
  {
    if |xs| > 0 {
      assert (xs + ys)[1..] == xs[1..] + ys;
      ApplyFlagsAppend(flagById, ApplyFlag(flagById, bits, xs[0]), xs[1..], ys);
    } else {
      assert xs + ys == ys;
    }
  }

  /** Selecting the tag/flag actions first changes nothing: only flag actions touch the bitmask. */
  lemma {:induction false} ApplyFlagsIgnoresOthers(flagById: int -> Option<Bits>, bits: Bits, actions: seq<Action>)
    ensures ApplyFlags(flagById, bits, TagFlagActions(actions)) == ApplyFlags(flagById, bits, actions)
    decreases |actions|
  {
    if |actions| > 0 {
      var a := actions[0];
      ApplyFlagsIgnoresOthers(flagById, ApplyFlag(flagById, bits, a), actions[1..]);
      if !InFamily(a, TagFlag) {
        assert ApplyFlag(flagById, bits, a) == bits;
        ApplyFlagsIgnoresOthers(flagById, bits, actions[1..]);
      }
    }
  }

  /** Without flag actions whose id resolves, the bitmask is exactly the unread bit. */
  lemma NoFlagsGivesUnread(flagById: int -> Option<Bits>, unread: Bits, actions: seq<Action>)
    requires forall k :: 0 <= k < |actions| ==> !(actions[k].FlagAction? && flagById(actions[k].flagId).Some?)
    ensures FlagBitmask(flagById, unread, actions) == unread
  {
    ApplyFlagsIgnoresOthers(flagById, unread, actions);
    UnresolvedFlagsChangeNothing(flagById, unread, actions);
  }

  lemma {:induction false} UnresolvedFlagsChangeNothing(flagById: int -> Option<Bits>, bits: Bits, actions: seq<Action>)
    requires forall k :: 0 <= k < |actions| ==> !(actions[k].FlagAction? && flagById(actions[k].flagId).Some?)
    ensures ApplyFlags(flagById, bits, actions) == bits
    decreases |actions|
  {
    if |actions| > 0 {
      UnresolvedFlagsChangeNothing(flagById, bits, actions[1..]);
    }
  }

  /** The last flag action on a flag wins: afterwards the flag's bits are all set when that
      action sets the flag and all clear when it clears it, whatever came before, as long
      as no later flag action touches the same bits. */
  lemma LastFlagActionWins(flagById: int -> Option<Bits>, bits: Bits, before: seq<Action>,
                           id: int, isSet: bool, after: seq<Action>, mask: Bits)
    requires flagById(id) == Some(mask)
    requires forall k :: 0 <= k < |after| && after[k].FlagAction? && flagById(after[k].flagId).Some? ==>
               flagById(after[k].flagId).value * mask == {}
    ensures ApplyFlags(flagById, bits, before + [FlagAction(id, isSet)] + after) * mask == (if isSet then mask else {})
  {
    ApplyFlagsAppend(flagById, bits, before + [FlagAction(id, isSet)], after);
    ApplyFlagsAppend(flagById, bits, before, [FlagAction(id, isSet)]);
    var mid := ApplyFlags(flagById, bits, before + [FlagAction(id, isSet)]);
    assert mid == ApplyFlag(flagById, ApplyFlags(flagById, bits, before), FlagAction(id, isSet));
    DisjointFlagsKeepBits(flagById, mid, after, mask);
  }

  lemma {:induction false} DisjointFlagsKeepBits(flagById: int -> Option<Bits>, bits: Bits, actions: seq<Action>, mask: Bits)
    requires forall k :: 0 <= k < |actions| && actions[k].FlagAction? && flagById(actions[k].flagId).Some? ==>
               flagById(actions[k].flagId).value * mask == {}
    ensures ApplyFlags(flagById, bits, actions) * mask == bits * mask
    decreases |actions|
  {
    if |actions| > 0 {
      var a := actions[0];
      var next := ApplyFlag(flagById, bits, a);
      if a.FlagAction? && flagById(a.flagId).Some? {
        var m := flagById(a.flagId).value;
        assert forall x :: x in m ==> x !in mask by {
          forall x | x in m ensures x !in mask { assert x !in m * mask; }
        }
        assert (bits + m) * mask == bits * mask;
        assert (bits - m) * mask == bits * mask;
      }
      DisjointFlagsKeepBits(flagById, next, actions[1..], mask);
    }
  }

  // ----------------------------------------------------------------- tags

  /** The ids of the tags named by the tag actions, in order; names that do not
      resolve (getTagByName threw) are skipped. */
  function TagIds(tagByName: string -> Option<int>, actions: seq<Action>): (ids: seq<int>)
    ensures |ids| <= |actions|
    decreases |actions|
  {
    if |actions| == 0 then []
    else
      var rest := TagIds(tagByName, actions[1..]);
      var a := actions[0];
      if a.TagAction? && tagByName(a.tagName).Some? then [tagByName(a.tagName).value] + rest else rest
  }

  function IdStrings(ids: seq<int>): (r: seq<string>)
    ensures |r| == |ids| && forall k :: 0 <= k < |ids| ==> r[k] == IntToString(ids[k])
  {
    seq(|ids|, k requires 0 <= k < |ids| => IntToString(ids[k]))
  }

  /** getTags: the resolved tag ids of the tag/flag actions in decimal, joined by ",". */
  function TagsString(tagByName: string -> Option<int>, actions: seq<Action>): string
  {
    Join(IdStrings(TagIds(tagByName, TagFlagActions(actions))), ',')
  }

  /** How a reader of the tag string recovers the ids: split at "," and parse each piece. */
  function ParseTagIds(tags: string): Option<seq<int>>
  {
    if tags == "" then Some([]) else ParseAll(Split(tags, ','))
  }

  function ParseAll(pieces: seq<string>): Option<seq<int>>
    decreases |pieces|
  {
    if |pieces| == 0 then Some([])
    else match (ParseInt(pieces[0]), ParseAll(pieces[1..]))
      case (Some(i), Some(rest)) => Some([i] + rest)
      case _ => None
  }

  lemma {:induction false} ParseAllIdStrings(ids: seq<int>)
    ensures ParseAll(IdStrings(ids)) == Some(ids)
    decreases |ids|
  {
    if |ids| > 0 {
      IntToStringRoundTrip(ids[0]);
      assert IdStrings(ids)[1..] == IdStrings(ids[1..]);
      ParseAllIdStrings(ids[1..]);
      assert ids == [ids[0]] + ids[1..];
    }
  }

  /** The tag string loses nothing: it is "" exactly when no tag resolved, and splitting it
      at "," and parsing the pieces gives the resolved ids back in action order. */
  lemma TagsStringRoundTrip(tagByName: string -> Option<int>, actions: seq<Action>)
    ensures TagsString(tagByName, actions) == "" <==> TagIds(tagByName, TagFlagActions(actions)) == []
    ensures ParseTagIds(TagsString(tagByName, actions)) == Some(TagIds(tagByName, TagFlagActions(actions)))
  {
    var ids := TagIds(tagByName, TagFlagActions(actions));
    var parts := IdStrings(ids);
    if |ids| == 0 {
      assert parts == [];
    } else {
      JoinNonEmpty(parts, ',');
      forall k | 0 <= k < |parts| ensures ',' !in parts[k] {
        NoCommaInNumber(ids[k]);
      }
      SplitJoin(parts, ',');
      ParseAllIdStrings(ids);
    }
  }

  lemma NoCommaInNumber(i: int)
    ensures ',' !in IntToString(i)
  {
  }

  lemma {:induction false} JoinNonEmpty(parts: seq<string>, sep: char)
    requires |parts| >= 1 && |parts[0]| >= 1
    ensures Join(parts, sep) != ""
  {
    if |parts| > 1 {
      assert Join(parts, sep)[0] == parts[0][0];
    }
  }

  /** Only tag actions whose name resolves contribute, each at its place in the action order. */
  lemma {:induction false} TagIdsAppend(tagByName: string -> Option<int>, xs: seq<Action>, ys: seq<Action>)
    ensures TagIds(tagByName, xs + ys) == TagIds(tagByName, xs) + TagIds(tagByName, ys)
    decreases |xs|
  {
    if |xs| > 0 {
      assert (xs + ys)[1..] == xs[1..] + ys;
      TagIdsAppend(tagByName, xs[1..], ys);
    } else {
      assert xs + ys == ys;
    }
  }
}

# Zimbra mail server: filter actions, IMAP mailbox status, trusted network, blobs, permission redo records

This project models five pieces of the Zimbra Collaboration Suite mail server in Dafny and proves
properties of them.

- **The Sieve filter action executor** (`ZimbraMailAdapter`). The rule engine evaluates a user's
  filter rules and hands the adapter an ordered list of actions. The adapter does the following:
  - splits the list into delivery actions (keep, fileinto, redirect) and tag/flag actions;
  - computes one flag bitmask and one comma-joined tag-id string for every store;
  - decides from a configured header and pattern whether the message is spam;
  - walks the delivery actions and chooses a target folder for each: Inbox, Spam, the folder a
    path resolves to, the remote folder behind a mountpoint, or the Inbox fallback;
  - stops the walk when the store reports a duplicate;
  - records every message the store returned;
  - shows address headers whose domains are ACE-encoded (IDN) in their Unicode form as well.

  Modules `SieveActions`, `IdnHeaders` and `Filter`. `Filter` first states the filing rules as
  functions on values (`Execute`, `Deliver`, `Step`). The `ZimbraMailAdapter` class is then proved
  to follow them. The recipient's mailbox, remote mailboxes, the mail transport, IDN decoding,
  address parsing and the spam regex are oracles: functions held in datatype fields. The store's
  answer may depend on the calls made before it, which is how it can recognise a duplicate.
- **The IMAP client's mailbox record** (`mailclient/imap/Mailbox`), module `ImapMailbox`. It holds
  counters, flags and the access mode. Untagged responses and response codes update it, and a
  STATUS response (section 7.2.4 of RFC 3501) fills it in.
- **The trusted-network check** (`TrustedNetwork`), module `TrustedNetwork`.
- **A blob in the message store** (`Blob`), module `BlobStore`. Its reported raw size depends on
  whether in-memory data are present.
- **The redo-log record of an ACL change** (`SetPermissions`), module `SetPermissionsOp`. It
  covers the two fields written to and read from the log, the printable form, and the convention
  that "" stands for a null ACL.

`Common` holds Option/Result and the Java integer widths. `JavaText` holds the Java string
operations the models need: `Integer.toString`, decimal parsing, ASCII case folding, and joining
and splitting at ','.

The Blob getters other than `getRawSize` (`GetFile`, `GetPath`, `GetVolumeId`, `IsCompressed`,
`GetDigest`, `GetInMemoryData`) read a field and carry no contract of their own. What they return
after a sequence of setters is stated by `BlobStore.Apply` and `BlobStore.LastSetWins`: the
compressed flag, the data, the digest and the raw size are the values last set, and the file,
path and volume id are those given at construction.

## Model

| member | source | states |
|---|---|---|
| SieveActions.Select | src/java/com/zimbra/cs/filter/ZimbraMailAdapter.java:381-402 | the selected list holds only actions of the family; each action of the family occurs exactly as often as in the input, and no other action occurs |
| SieveActions.DeliveryActions | src/java/com/zimbra/cs/filter/ZimbraMailAdapter.java:381-391 | the list holds only keep, fileinto and redirect actions, each occurring exactly as often as in the input |
| SieveActions.TagFlagActions | src/java/com/zimbra/cs/filter/ZimbraMailAdapter.java:393-402 | the list holds only tag and flag actions, each occurring exactly as often as in the input |
| SieveActions.SelectAppend | src/java/com/zimbra/cs/filter/ZimbraMailAdapter.java:381-402 | selection keeps input order: selecting from xs + ys is the selection of xs followed by that of ys |
| SieveActions.ClassificationPartition | src/java/com/zimbra/cs/filter/ZimbraMailAdapter.java:381-402 | no action is in both lists; every keep/fileinto/redirect/tag/flag action of the input is in one of them; each list holds only input actions of its own kinds, so the "unknown action" throw (367-369) cannot be reached |
| SieveActions.ApplyFlagsAppend | src/java/com/zimbra/cs/filter/ZimbraMailAdapter.java:443-461 | flag actions are applied in order: applying xs + ys is applying ys after xs |
| SieveActions.ApplyFlagsIgnoresOthers | src/java/com/zimbra/cs/filter/ZimbraMailAdapter.java:443-461 | only flag actions touch the bitmask, so applying the tag/flag list gives the same bits as applying the whole action list |
| SieveActions.NoFlagsGivesUnread | src/java/com/zimbra/cs/filter/ZimbraMailAdapter.java:443-461 | without a flag action whose id resolves, the bitmask is exactly the unread bit |
| SieveActions.UnresolvedFlagsChangeNothing | src/java/com/zimbra/cs/filter/ZimbraMailAdapter.java:449-458 | flag actions whose flag lookup throws leave the bitmask as it was |
| SieveActions.LastFlagActionWins | src/java/com/zimbra/cs/filter/ZimbraMailAdapter.java:443-461 | after a set (OR) or clear (AND-NOT) of a flag, its bits are all set or all clear, whatever came before, as long as no later flag action touches them |
| SieveActions.DisjointFlagsKeepBits | src/java/com/zimbra/cs/filter/ZimbraMailAdapter.java:443-461 | flag actions whose masks are disjoint from a set of bits leave those bits unchanged |
| SieveActions.ParseAllIdStrings | src/java/com/zimbra/cs/filter/ZimbraMailAdapter.java:420-441 | parsing the decimal forms of a list of ids gives the ids back |
| SieveActions.TagsStringRoundTrip | src/java/com/zimbra/cs/filter/ZimbraMailAdapter.java:420-441 | the tag string is "" exactly when no tag name resolved; splitting it at ',' and parsing the pieces gives the resolved tag ids back, in action order |
| SieveActions.TagIdsAppend | src/java/com/zimbra/cs/filter/ZimbraMailAdapter.java:420-441 | each tag action contributes its id at its own place in action order; unresolved names contribute nothing |
| IdnHeaders.Tokens | src/java/com/zimbra/cs/filter/ZimbraMailAdapter.java:493-497 | the StringTokenizer(",;", true) tokens spell the value; each is one delimiter or a non-empty run without delimiters; such a run is followed by a delimiter unless it is the last token |
| IdnHeaders.RewriteAddress | src/java/com/zimbra/cs/filter/ZimbraMailAdapter.java:498-513 | an address is marked altered exactly when it parses and its address decodes to a string that is not equal ignoring case; an unparsable or unaltered address is kept verbatim |
| IdnHeaders.AlteredIffSomeAddressChanges | src/java/com/zimbra/cs/filter/ZimbraMailAdapter.java:495-514 | the rebuilt value is marked altered if and only if some token in address position decodes to a different string |
| IdnHeaders.UnalteredRebuildsTokens | src/java/com/zimbra/cs/filter/ZimbraMailAdapter.java:495-514 | when nothing was altered, the rebuilt text is the tokens put back together |
| IdnHeaders.UnalteredHeaderUnchanged | src/java/com/zimbra/cs/filter/ZimbraMailAdapter.java:491-522 | a value none of whose addresses decodes differently is rebuilt exactly as it was |
| IdnHeaders.IdnValueShape | src/java/com/zimbra/cs/filter/ZimbraMailAdapter.java:488-527 | each original value yields one or two values; the last one is the original; there are two exactly when the value contains "xn--" and some address in it decodes differently, and the first one is then the rewritten value |
| IdnHeaders.IdnValuesAppend | src/java/com/zimbra/cs/filter/ZimbraMailAdapter.java:485-530 | the values of the originals come out in the originals' order |
| IdnHeaders.IdnValuesAt | src/java/com/zimbra/cs/filter/ZimbraMailAdapter.java:485-530 | the values of the k-th original sit between those of the originals before it and those after it |
| IdnHeaders.NonAddressHeaderUnchanged | src/java/com/zimbra/cs/filter/ZimbraMailAdapter.java:532-540 | a header whose lower-cased name is not bcc, cc, from, reply-to, sender or to comes back with its values unchanged |
| IdnHeaders.NoAcePrefixUnchanged | src/java/com/zimbra/cs/filter/ZimbraMailAdapter.java:491 | values that do not contain the ACE prefix are reported exactly as they are |
| Filter.SpamVerdict | src/java/com/zimbra/cs/filter/ZimbraMailAdapter.java:160-172 | not spam without a configured header or when the message lacks it; with a pattern, spam exactly when the header's first value matches it in full; without a pattern, the header's presence alone means spam |
| Filter.LocalStore | src/java/com/zimbra/cs/filter/ZimbraMailAdapter.java:409-418 | one store call is appended, carrying the folder, flag bitmask and tag string; the outcome is the store's answer to that call given the calls before it, and the message is recorded exactly when the store returned one |
| Filter.EmptyActionsDiscard | src/java/com/zimbra/cs/filter/ZimbraMailAdapter.java:240-244 | an empty action list stores nothing, files nothing remotely, sends nothing and records nothing |
| Filter.TagFlagOnlyFilesOnce | src/java/com/zimbra/cs/filter/ZimbraMailAdapter.java:246-254 | a non-empty list without delivery actions makes exactly one store, into Spam for spam and Inbox otherwise; it fails exactly when that store throws, and records at most one message |
| Filter.KeepTargets | src/java/com/zimbra/cs/filter/ZimbraMailAdapter.java:258-273 | an explicit keep stores into Inbox regardless of spam; an implicit keep uses default filing; a keep halts the walk exactly when the store reports a duplicate, and fails exactly when the store throws |
| Filter.FileIntoRouting | src/java/com/zimbra/cs/filter/ZimbraMailAdapter.java:274-340 | a throwing lookup stops the delivery; a plain folder goes to itself when fully matched and to Inbox when a non-empty part of the path is left; an unreachable, missing or refusing remote folder leads to a local store into Inbox; a successful remote add makes no local store; each local store halts the walk exactly when the store reports a duplicate and fails exactly when it throws |
| Filter.RedirectNeverHalts | src/java/com/zimbra/cs/filter/ZimbraMailAdapter.java:341-366 | a redirect is attempted once; when it fails the message is stored into Inbox; the result of that store never halts the walk |
| Filter.HaltMeansDuplicate | src/java/com/zimbra/cs/filter/ZimbraMailAdapter.java:258-366 | a delivery action halts if and only if it is a keep or fileinto that made exactly one store call and the store reported a duplicate for it; a redirect never halts; a halting step records nothing |
| Filter.DuplicateEndsWalk | src/java/com/zimbra/cs/filter/ZimbraMailAdapter.java:256-273 | when the store answers a keep or fileinto with a duplicate, the walk ends there with the duplicate status, and the later delivery actions are not performed |
| Filter.LocalFileIntoDuplicateEndsWalk | src/java/com/zimbra/cs/filter/ZimbraMailAdapter.java:274-340 | a fileinto to an existing local folder whose store answers with a duplicate ends the walk with the duplicate status, and no later action makes a store call |
| Filter.Step | src/java/com/zimbra/cs/filter/ZimbraMailAdapter.java:256-369 | one delivery action keeps the store calls made before and adds at most one; only a redirect sends, only a fileinto adds remotely, and a redirect never halts |
| Filter.Deliver | src/java/com/zimbra/cs/filter/ZimbraMailAdapter.java:256-370 | the walk makes at most one store call and at most one send per delivery action |
| Filter.Execute | src/java/com/zimbra/cs/filter/ZimbraMailAdapter.java:234-379 | an empty list does nothing and completes; a non-empty list without delivery actions makes a store call; at most one store call per delivery action, or exactly one default filing when there are none |
| Filter.StoppedWalkIgnoresLaterActions | src/java/com/zimbra/cs/filter/ZimbraMailAdapter.java:256-370 | once the walk halts or fails, appending more delivery actions changes nothing |
| Filter.CompletedWalkContinues | src/java/com/zimbra/cs/filter/ZimbraMailAdapter.java:256-370 | a walk that completes hands its state to the next actions unchanged |
| Filter.RecordedAppend | src/java/com/zimbra/cs/filter/ZimbraMailAdapter.java:409-418 | the messages recorded for two runs of store calls are those of the first followed by those of the second |
| Filter.RecordedSnoc | src/java/com/zimbra/cs/filter/ZimbraMailAdapter.java:409-418 | one more store call adds to the recorded messages exactly the message it returned, if any |
| Filter.LocalStoreRecords | src/java/com/zimbra/cs/filter/ZimbraMailAdapter.java:409-418 | one store records exactly the message the store returned, with the delivery's flags and tags |
| Filter.StepRecords | src/java/com/zimbra/cs/filter/ZimbraMailAdapter.java:256-370 | each delivery action only appends store calls carrying the delivery's flags and tags, and records exactly the messages returned for them |
| Filter.DeliverRecords | src/java/com/zimbra/cs/filter/ZimbraMailAdapter.java:256-370 | the walk records exactly the messages the store returned, in call order |
| Filter.ExecuteRecords | src/java/com/zimbra/cs/filter/ZimbraMailAdapter.java:234-379 | executeActions records exactly the store's non-null results, in order, and every store carries the flag bitmask and tag string of the whole action list |
| Filter.ZimbraMailAdapter.constructor | src/java/com/zimbra/cs/filter/ZimbraMailAdapter.java:150-173 | the adapter starts with no actions and no messages; its spam verdict is SpamVerdict of the configuration and the message |
| Filter.ZimbraMailAdapter.AddAction | src/java/com/zimbra/cs/filter/ZimbraMailAdapter.java:229-232 | the action is appended to the action list |
| Filter.ZimbraMailAdapter.ExecuteActions | src/java/com/zimbra/cs/filter/ZimbraMailAdapter.java:234-379 | the calls made, the messages recorded and the final status (completed, duplicate or exception) are those of Execute; the recorded messages remain exactly the store's non-null results |
| Filter.ZimbraMailAdapter.Walk | src/java/com/zimbra/cs/filter/ZimbraMailAdapter.java:256-372 | the loop over the delivery actions, stopped by the duplicate flag or an exception, makes the calls, records the messages and ends with the status of Deliver |
| Filter.ZimbraMailAdapter.Perform | src/java/com/zimbra/cs/filter/ZimbraMailAdapter.java:257-369 | one turn of the loop does what Step prescribes for the action's kind |
| Filter.ZimbraMailAdapter.FileRemotely | src/java/com/zimbra/cs/filter/ZimbraMailAdapter.java:293-327 | with no reachable remote folder nothing is called and the message is not filed remotely; otherwise exactly one remote add is made with the delivery's flag bitmask, and the message counts as filed remotely exactly when that add succeeds |
| Filter.ZimbraMailAdapter.Keep | src/java/com/zimbra/cs/filter/ZimbraMailAdapter.java:258-273 | the keep branch does what Step prescribes for a keep |
| Filter.ZimbraMailAdapter.FileInto | src/java/com/zimbra/cs/filter/ZimbraMailAdapter.java:274-340 | the fileinto branch does what Step prescribes for a fileinto |
| Filter.ZimbraMailAdapter.Redirect | src/java/com/zimbra/cs/filter/ZimbraMailAdapter.java:341-366 | the redirect branch does what Step prescribes for a redirect |
| Filter.ZimbraMailAdapter.DoDefaultFiling | src/java/com/zimbra/cs/filter/ZimbraMailAdapter.java:404-407 | one store into Spam for spam and Inbox otherwise |
| Filter.ZimbraMailAdapter.AddMessage | src/java/com/zimbra/cs/filter/ZimbraMailAdapter.java:409-418 | one store call with the folder, the current flag bitmask and tag string; a returned message is appended to the processed messages |
| Filter.ZimbraMailAdapter.GetTags | src/java/com/zimbra/cs/filter/ZimbraMailAdapter.java:420-441 | the tag string is TagsString of the actions, whose round trip TagsStringRoundTrip proves |
| Filter.ZimbraMailAdapter.GetFlagBitmask | src/java/com/zimbra/cs/filter/ZimbraMailAdapter.java:443-461 | the bitmask is the unread bit with the flag actions applied in order (FlagBitmask) |
| Filter.ZimbraMailAdapter.HandleIdn | src/java/com/zimbra/cs/filter/ZimbraMailAdapter.java:485-530 | the reported values are IdnValues of the originals, whose shape and order IdnValueShape and IdnValuesAt state |
| Filter.ZimbraMailAdapter.RewriteHeaderValue | src/java/com/zimbra/cs/filter/ZimbraMailAdapter.java:493-514 | the rebuilt text and the altered flag are RewriteTokens of the value's tokens |
| Filter.ZimbraMailAdapter.GetHeader | src/java/com/zimbra/cs/filter/ZimbraMailAdapter.java:532-540 | address headers go through handleIDN; other headers come back as they are; a missing header gives no values |
| Filter.ZimbraMailAdapter.ProcessedMessages | src/java/com/zimbra/cs/filter/ZimbraMailAdapter.java:586-588 | the processed messages are exactly the non-null results of this adapter's store calls, in order |
| ImapMailbox.Fresh | src/java/com/zimbra/cs/mailclient/imap/Mailbox.java:25-33 | a new mailbox has the given name, no flags, no access mode, and -1 in all five counters |
| ImapMailbox.OnResponseText | src/java/com/zimbra/cs/mailclient/imap/Mailbox.java:119-145 | known codes are consumed and unknown ones are not, leaving everything unchanged; for each code, the record after it is stated field by field: UIDNEXT and UIDVALIDITY are taken only when positive; UNSEEN is taken as it comes; PERMANENTFLAGS replaces the permanent flags; READ-WRITE and READ-ONLY set the access mode, after which exactly one of the two holds; nothing else changes |
| ImapMailbox.OnResponse | src/java/com/zimbra/cs/mailclient/imap/Mailbox.java:101-117 | EXISTS, RECENT and FLAGS set only their own field and are consumed; OK passes its code to the response-code handler; other responses are not consumed and change nothing |
| ImapMailbox.ResponsesKeepUidsUnsetOrPositive | src/java/com/zimbra/cs/mailclient/imap/Mailbox.java:125-132 | no sequence of responses makes UIDNEXT or UIDVALIDITY zero or negative once they are unset or positive |
| ImapMailbox.ResponsesKeepName | src/java/com/zimbra/cs/mailclient/imap/Mailbox.java:101-145 | responses never change the name, and only READ-WRITE and READ-ONLY codes change the access mode |
| ImapMailbox.LastAccessCodeWins | src/java/com/zimbra/cs/mailclient/imap/Mailbox.java:136-141 | the access mode is the one the last READ-WRITE or READ-ONLY code reported, whatever other responses and response codes follow it |
| ImapMailbox.SetField | src/java/com/zimbra/cs/mailclient/imap/Mailbox.java:77-92 | one STATUS attribute sets its own counter (MESSAGES sets exists) and no other field |
| ImapMailbox.StatusFailsOnUnknownAttribute | src/java/com/zimbra/cs/mailclient/imap/Mailbox.java:73-98 | a STATUS list fails if and only if it holds an attribute other than the five, and the error then names the first such attribute |
| ImapMailbox.StatusLastValueWins | src/java/com/zimbra/cs/mailclient/imap/Mailbox.java:73-98 | a repeated attribute ends with the value of its last occurrence |
| ImapMailbox.StatusMissingKeepsValue | src/java/com/zimbra/cs/mailclient/imap/Mailbox.java:62-98 | a counter missing from the list keeps its value, so a freshly read mailbox reports -1 for it |
| ImapMailbox.StatusKeepsOtherFields | src/java/com/zimbra/cs/mailclient/imap/Mailbox.java:68-98 | the attribute list changes only the five counters |
| ImapMailbox.StatusTakesZeroUidNext | src/java/com/zimbra/cs/mailclient/imap/Mailbox.java:84-86 | STATUS takes UIDNEXT 0 as it comes, while a [UIDNEXT 0] response code leaves the field alone (125-128) |
| ImapMailbox.Mailbox.constructor | src/java/com/zimbra/cs/mailclient/imap/Mailbox.java:35-37 | the new mailbox is Fresh(name), neither read-only nor read-write |
| ImapMailbox.Mailbox.Copy | src/java/com/zimbra/cs/mailclient/imap/Mailbox.java:39-49 | all nine fields are copied unchanged |
| ImapMailbox.Mailbox.IsReadOnly | src/java/com/zimbra/cs/mailclient/imap/Mailbox.java:155 | true exactly when the access mode is READ-ONLY, and then isReadWrite is false |
| ImapMailbox.Mailbox.IsReadWrite | src/java/com/zimbra/cs/mailclient/imap/Mailbox.java:156 | true exactly when the access mode is READ-WRITE |
| ImapMailbox.Mailbox.SetName | src/java/com/zimbra/cs/mailclient/imap/Mailbox.java:158 | only the name changes |
| ImapMailbox.Mailbox.HandleResponse | src/java/com/zimbra/cs/mailclient/imap/Mailbox.java:101-117 | the new fields and the result are those of OnResponse |
| ImapMailbox.Mailbox.HandleResponseText | src/java/com/zimbra/cs/mailclient/imap/Mailbox.java:119-145 | the new fields and the result are those of OnResponseText |
| ImapMailbox.Mailbox.ParseStatus | src/java/com/zimbra/cs/mailclient/imap/Mailbox.java:68-99 | the name is set and the attribute pairs are applied in order; the fields and the error are those of ApplyStatus |
| ImapMailbox.ReadStatus | src/java/com/zimbra/cs/mailclient/imap/Mailbox.java:62-66 | it succeeds exactly when every attribute is one of the five; the new mailbox is a fresh one after the STATUS list; on failure the ParseException's message is returned |
| TrustedNetwork.IsIpTrusted | src/java/com/zimbra/cs/servlet/TrustedNetwork.java:31-47 | a null or empty address is never trusted; "127.0.0.1" always is; otherwise the address is untrusted when the server cannot be fetched, and trusted exactly when the server's list holds it |
| TrustedNetwork.TrustedExactly | src/java/com/zimbra/cs/servlet/TrustedNetwork.java:31-51 | trusted if and only if the address is non-empty and is "127.0.0.1" or is listed by a server that could be fetched |
| TrustedNetwork.LocalhostIgnoresConfiguration | src/java/com/zimbra/cs/servlet/TrustedNetwork.java:36-38 | "127.0.0.1" is trusted whatever the configuration, even when it cannot be read |
| TrustedNetwork.IsLocalhost | src/java/com/zimbra/cs/servlet/TrustedNetwork.java:49-51 | "127.0.0.1" is localhost; a null address or any other text is not |
| TrustedNetwork.OtherLoopbackSpellings | src/java/com/zimbra/cs/servlet/TrustedNetwork.java:49-51 | "localhost", "127.0.0.2" and "::1" are not localhost; "::1" is trusted only when configured |
| BlobStore.Initial | src/java/com/zimbra/cs/store/Blob.java:34-47 | the path is the file's absolute path and the volume id is the given one; not compressed, no data, no digest, raw size 0 |
| BlobStore.ReportedRawSize | src/java/com/zimbra/cs/store/Blob.java:78-80 | the length of the in-memory data when present, the recorded raw size otherwise |
| BlobStore.Apply | src/java/com/zimbra/cs/store/Blob.java:82-99 | each setter replaces its own field and no other |
| BlobStore.LastSetWins | src/java/com/zimbra/cs/store/Blob.java:82-99 | after any sequence of setters, the compressed flag, the data, the digest and the raw size are the ones last set, or the initial ones when none was set; file, path and volume id do not change |
| BlobStore.ReportedRawSizeAfter | src/java/com/zimbra/cs/store/Blob.java:78-99 | the reported size follows the last data set when they are not null, and the last raw size set otherwise |
| BlobStore.DataMaskRawSize | src/java/com/zimbra/cs/store/Blob.java:78-99 | a raw size set while data are held is hidden by them, and setting the data to null exposes it again |
| BlobStore.Blob.constructor | src/java/com/zimbra/cs/store/Blob.java:43-47 | the new blob is Initial(file, volumeId) |
| BlobStore.Blob.GetRawSize | src/java/com/zimbra/cs/store/Blob.java:78-80 | the reported size of the current state |
| BlobStore.Blob.SetCompressed | src/java/com/zimbra/cs/store/Blob.java:82-84 | only the compressed flag changes |
| BlobStore.Blob.SetInMemoryData | src/java/com/zimbra/cs/store/Blob.java:89-91 | only the data change |
| BlobStore.Blob.SetDigest | src/java/com/zimbra/cs/store/Blob.java:93-95 | only the digest changes |
| BlobStore.Blob.SetRawSize | src/java/com/zimbra/cs/store/Blob.java:97-99 | only the recorded raw size changes |
| SetPermissionsOp.SetPermissions.Empty | src/java/com/zimbra/cs/redolog/op/SetPermissions.java:31-34 | folder id UNKNOWN_ID and ACL text "" |
| SetPermissionsOp.SetPermissions.constructor | src/java/com/zimbra/cs/redolog/op/SetPermissions.java:36-40 | mailbox and folder as given; ACL text "" for a null ACL and its string form otherwise |
| SetPermissionsOp.RedoAcl | src/java/com/zimbra/cs/redolog/op/SetPermissions.java:65 | "" gives no ACL, and any other text gives the ACL read from that text |
| SetPermissionsOp.AclConvention | src/java/com/zimbra/cs/redolog/op/SetPermissions.java:36-67 | a null ACL comes back null after construction and redo, and a non-empty ACL text comes back intact; only an ACL whose text is empty would come back null |
| SetPermissionsOp.SetPermissions.PrintableData | src/java/com/zimbra/cs/redolog/op/SetPermissions.java:46-50 | the text is "id=", the folder id in decimal, ", acl=" and the ACL text |
| SetPermissionsOp.PrintableRoundTrip | src/java/com/zimbra/cs/redolog/op/SetPermissions.java:46-50 | the printable text determines the folder id and the ACL: reading it back gives both |
| SetPermissionsOp.SetPermissions.SerializeData | src/java/com/zimbra/cs/redolog/op/SetPermissions.java:52-55 | the folder id and then the ACL text are appended to the log |
| SetPermissionsOp.SetPermissions.DeserializeData | src/java/com/zimbra/cs/redolog/op/SetPermissions.java:57-60 | both fields are read in order; a failed read raises the IOException and leaves the fields not yet read unchanged |
| SetPermissionsOp.SerializedRoundTrip | src/java/com/zimbra/cs/redolog/op/SetPermissions.java:52-60 | reading back what serializeData wrote, wherever it sits in the log, gives both fields |
| SetPermissionsOp.TruncatedRecord | src/java/com/zimbra/cs/redolog/op/SetPermissions.java:57-60 | a log that ends after the folder id gives the folder id and an error; an empty log gives nothing |
| SetPermissionsOp.LogRoundTrip | src/java/com/zimbra/cs/redolog/op/SetPermissions.java:52-60 | an op written to a log and read back into an empty op has the same folder id and ACL text |
| SetPermissionsOp.SetPermissions.Redo | src/java/com/zimbra/cs/redolog/op/SetPermissions.java:63-67 | setPermissions is called on the op's mailbox and folder, with no ACL for "" and the ACL read from the text otherwise, the same convention as RedoAcl |

## Left out

- I/O, logging, `getHeaderNames` (HashSet order), `getSize`, the `toString` methods and `getOpCode` are not modelled.
- The static initializer's Provisioning lookup is not modelled. The spam header and pattern arrive as a `SpamConfig` value, and the pattern is an abstract full-match predicate.
- `MimeMessage.saveChanges` and its wrapper class are not modelled. The redirect's outcome is one oracle answer: whether `new InternetAddress(addr)` and `Transport.send` succeed.
- Foreign calls are oracle answers in `MailboxEnv`. These are `getFolderByPathLongestMatch`, `getTagByName`, `getFlagById`, `Mailbox.addMessage`, `getRemoteZMailbox`, the remote `getFolderById`/`getSubFolderByPath`/`addMessage`, `IDNUtil.toUnicode` and `InternetAddress` parsing and rendering.
- `getFolderById(ID_FOLDER_INBOX)` in the fileinto fallbacks is assumed to succeed.
- BlobStore.Blob.SetInMemoryData: the in-memory data are a value, not the caller's array. Java keeps the array it is given (Blob.java:89-91), so later writes by the caller show through `getInMemoryData`; the model does not capture that aliasing. The length, which is all `getRawSize` reads, cannot change either way.
- Filter.ContextOf: the tag and flag lookups (`getTagByName`, `getFlagById`) are assumed to answer the same throughout one delivery. Java recomputes the bitmask and the tag string at every local store (ZimbraMailAdapter.java:410-411) and at the remote add (318-319); the model computes them once, which is what lets `Filter.ExecuteRecords` state the same bitmask and tag string for every store.
- `ZimbraSieveException` wrapping is not modelled. Every exception that escapes executeActions becomes the status `Failed`.
- Unchecked exceptions are not modelled: a NullPointerException when `getFlagById` or `getTagByName` returns null, a RuntimeException from `Transport.send`, and any other runtime exception that escapes executeActions uncaught. The `MessagingException` that `getHeader` can raise in the constructor's spam check (ZimbraMailAdapter.java:160-172) is not modelled either; the header values arrive as a sequence.
- The SieveException for an unknown action is not modelled as a path: the delivery list cannot hold one (`SieveActions.ClassificationPartition`).
- `Mailbox.ID_FOLDER_USER_ROOT` = 1, `ID_FOLDER_INBOX` = 2, `ID_FOLDER_SPAM` = 4, `Flag.BITMASK_UNREAD` (bit 9), `IDNUtil.ACE_PREFIX` = "xn--" and `RedoableOp.UNKNOWN_ID` = 0 are defined in files that are not part of this model. Their values are fixed as named constants.
- A Java `int` bitmask is modelled as the set of its 1-bit positions. `|` is union and `& ~` is difference, which holds for every 32-bit value.
- Flag.bitmaskToFlags is foreign, so the remote add carries the bitmask itself. The message's raw data are not part of a store request.
- The recipient and the shared delivery context passed to `Mailbox.addMessage` are not part of a store request.
- EqualsIgnoreCase and Lower: case folding covers ASCII letters only, not Java's full Unicode folding. For the address-header test this changes nothing. The only non-ASCII characters that lower-case to ASCII fold to 'i' or 'k', and no address-header name contains either letter. The address comparison in handleIDN can differ from Java for non-ASCII addresses.
- A header the message lacks (null) and a header with no values are both the empty sequence. `getHeader` answers the same for both.
- The tag ids are unbounded integers, printed by `Integer.toString` rules. A rendered tag string does not depend on the id width.
- The IMAP counters (Java longs) are unbounded integers. `MailboxName` decoding and `ImapInputStream` byte-level reading are not modelled. The STATUS input is the decoded mailbox name and a sequence of (attribute, number) pairs, with the number non-negative as the grammar requires.
- `SetPermissions.redo`'s `MailboxManager` lookup and `ACL`/`MetadataList` parsing are not modelled. The ACL stays as its text, and redo returns the request it would make.
- `writeUTF`'s byte encoding and its 65535-byte limit are not modelled. The redo log is a sequence of typed items, and a read of the wrong type or past the end is an IOException.
- `SetPermissionsOp.SetPermissions.Empty`: the mailbox id kept by RedoableOp is not part of its contract, because RedoableOp is not part of this model.
- The IncomingBlob, DbPop3Message, PermUtil, DavMethod, ModifyDistributionList, ZimbraExtensionPostInit and TestPurge files are outside the modelled core. They are I/O, SQL, LDAP, HTTP and SOAP plumbing.

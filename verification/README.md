# Open OSCAR Server: verified model

This Dafny project models the parts of Open OSCAR Server (an AIM and ICQ server in Go) whose correctness is hardest to
see by reading, and proves what they promise.

**The wire codec.** `Schema` has the Go types the codec walks by reflection, with their `oscar` tags, as one datatype,
and values as another. `Encode` and `Decode` are the printer and the parser over that universe, `CodecStreams` the same
with a reader, a writer and loops over elements and fields, and `TagParser` the text of the tags. The round trip holds
for every well-formed schema in either byte order, exactly for the values whose prefixes are wide enough and whose
`nullterm` strings have no NUL. `CodecCanonical` and `CodecLoss` go the other way: which input bytes encoding a decoded
value gives back. `CodecCuts` says what a message cut short decodes to. `WireFormat` has the bytes of each construct and
which error each bad schema gives. `Cookie` builds the signed auth cookie on top.

**The buddy list.** `FeedbagEdits` says what each `FeedbagList` call does to the items, which live in a memory and are
held by pointer, and to the two pending logs; `FeedbagList` is the mutable list with its loops, proved to do just that.
`FeedbagOrder`, `FeedbagRuns` and `FeedbagDeletion` prove the order attributes exact over every run of edits, and say
exactly when `DeleteGroup` keeps them so; `FeedbagRoster` says what each edit means for the groups and their buddies,
`FeedbagPlaces` for their places, attributes and errors. `FeedbagSync` and `FeedbagReplay` prove exactly when replaying
the logs brings the database to the state of the list, for both orders of replay that callers use, `FeedbagReuse` what a
run of edits must avoid for that, and `FeedbagExamples` has runs in which each exception happens. `FeedbagItems` has the
wrap-around id allocator.

**Sessions as concurrent protocols.** `UserLocks`, `SessionManager` and `SessionLifecycle` take each critical section as
one step and prove their invariants over all interleavings. `UserLocks` refines one atomic lock a name, which is what
`SessionManager` builds on. `SessionCore` has a session's instance table and the methods that change it, and
`SessionComposition` puts the three together: calls that hold the locks refine the manager, and a session's instance
table refines the manager's counters.

**Rate limits and warnings.** `RateLimit` is the 32-bit moving average, `RateRuns` the throughput, pacing and scaling
results over whole runs, `RateHysteresis` what a limited class answers until it is clear again, `RateSession` the
session methods. `ConvoLimits` and `ConvoTracker` are the limiter of user warnings with its three-slot rings and
expiring caches; `ConvoPairs` states its limits for pairs of users.

**Masks and relations.** `BuddyPrefs` refines the preference masks to a plain map. `Relationship` is the relationship
query with SQL's three-valued logic, `RelationshipTables` what it says of the rows of the tables, `Privacy` and
`PrivacyStore` the permit/deny requests and the four-state policy they amount to, `Authorization` and
`AuthorizationService` the contact authorization flow, `AuthorizationLaws` what each request does to it.

Where the code does not do what its comments or its callers expect, the model keeps the code's behaviour and the lemma
says exactly when the promise holds:

- `FeedbagReplay.ReplayAfterRun`: a new item can take the id of a deleted one, and replaying the deletes last then
  deletes it (`FeedbagExamples.ReuseLosesItem`); with the deletes first, an item updated and then deleted comes back
  (`FeedbagExamples.DeletedUpdateReturns`).
- `FeedbagDeletion.DeleteGroupExactly`: deleting the group named "" can take the root group
  (`FeedbagExamples.UnnamedGroupTakesRoot`).
- `RateLimit.NewLevelExactly`: the elapsed milliseconds are cut to 32 bits; after some 25 days of silence a user is
  disconnected at the next message (`RateLimit.LongSilenceDisconnects`).
- `ConvoPairs.PairLimitsExactly`: the key of a pair of users is their names joined, and other pairs can have the same
  one: after 12345 wrote to 678901, the user 78901 may warn 123456, who never wrote (`ConvoPairs.NumbersClash`).
- `ConvoPairs.LifetimeBreaksExactly`: cache entries live for one hour from creation, so across two lifetimes a user can
  be warned more often than messages came (`ConvoPairs.TwoLifetimesOverrun`), or six times within an hour
  (`ConvoPairs.SixInAnHour`) and, by `ConvoPairs.PairLimits`, no more than that.
- `Relationship.FilterExactly`: asked about an empty list of users, the query answers about everybody
  (`Relationship.EmptyFilterReturnsAll`).
- `BuddyPrefs.SharedPlace`: preferences 32 and 33 share a bit.
- `BuddyPrefs.SetKeepsOthersExactly`: a stored list can have a valid and a value mask of different lengths, and setting
  one preference of it then changes others, except as the lemma says (`BuddyPrefs.MisalignedMasksMove`).
- `CodecLoss.RewrittenExactly`: an end of input between two fields of an element of a rest slice, or of an optional
  struct, drops the bytes read so far without an error (`CodecLoss.OddByteLost`).
- `ConvoLimits.RingCountsExactly`: the ring counts right exactly when its three times are the latest.
- `SessionManager.AbandonedExactly`: a multi-session sign-on replaces a single-session slot without waiting, and the
  replaced slot's signal is never given (`SessionManager.ReplacementAbandons`); no call waits on it.
- `RateRuns.WarningUndoneExactly`: after many decays a warning can take a threshold to the maximum, and its decay then
  does not give the threshold back (`RateRuns.UndoneFails`).
- `FeedbagItems.GenIdFresh` holds up to 32766 items, and `FeedbagItems.GenIdCanFail` shows that one more is too many.

## Model

| member | source | states |
|---|---|---|
| `TagParser.ParseRenderExactly` | wire/encode.go:220-290 | any tag written down parses back to itself, quirk included, and is refused exactly when it has both prefixes |
| `TagParser.ParseOSCARTag` | wire/encode.go:220-290 | the loop over the comma-separated pieces computes the specified tag or error |
| `TagParser.TrimExactly` | wire/encode.go:220-290 | white space is taken off both ends of a piece, and all of it |
| `TagParser.FlagExactly` | wire/encode.go:220-290 | which pieces without a value are accepted, and what they set |
| `TagParser.KeyExactly` | wire/encode.go:220-290 | which keys with which values are accepted, and what they set |
| `TagParser.NoValue` | wire/encode.go:220-290 | a key without a value is refused |
| `Integers.UintRoundTrip` | wire/encode.go:193-207 | an integer written in either byte order at its width reads back |
| `Integers.UintCanonical` | wire/decode.go:314-333 | bytes read as an integer are the only encoding of that integer at that width |
| `CodecProofs.MarshalSucceeds` | wire/encode.go:37-191 | every value of a well-formed schema can be encoded |
| `CodecProofs.DecodeEncoded` | wire/decode.go:31-94 | decoding an encoding, with anything after it for self-delimiting schemas, gives the value back and leaves the rest |
| `CodecProofs.DecodeNothing` | wire/decode.go:42-50 | on no input at all, a schema of at least one byte fails with EOF, which is what makes optional structs absent |
| `CodecProofs.EncodedIsWide` | wire/encode.go:87-131 | values of wide types never encode to nothing |
| `CodecExact.RoundTripExactly` | wire/decode.go:31-161 | for every well-formed schema, value, byte order and trailing bytes: the round trip holds if and only if lengths and counts fit their prefixes and `nullterm` strings have no NUL |
| `CodecExact.DecodeAdvances` | wire/decode.go:111-161 | decoding a wide type consumes input, whatever the bytes are |
| `CodecExact.DecodeTerminates` | wire/decode.go:96-161 | on arbitrary bytes no decode loop of a loop-safe schema runs for ever |
| `CodecExact.WellFormedIsLoopSafe` | wire/decode.go:96-161 | every well-formed schema is loop-safe |
| `CodecExact.SliceLoopsExactly` | wire/decode.go:111-161 | a slice of self-delimiting elements has an input on which its loop runs for ever if and only if it is not loop-safe, that is, has no count and elements that can be empty |
| `CodecExact.EmptyElementsNeverEnd` | wire/decode.go:146-161 | a rest slice of empty structs never ends, on any input: loop safety is needed |
| `CodecExact.DecodedHasType` | wire/decode.go:31-94 | whatever arrives, a decoded value has the type it was decoded as |
| `CodecCanonical.DecodedIsCanonical` | wire/decode.go:31-161 | for self-delimiting schemas that drop nothing, encoding a decoded value gives back the very bytes that were read |
| `CodecLoss.DecodedAndLost` | wire/decode.go:31-161 | for well-formed schemas without `nullterm` strings and length-prefixed structs, open ones included: the input is the encoding of the decoded value, the bytes lost at an end of input, and the bytes left |
| `CodecLoss.RewrittenExactly` | wire/decode.go:31-161 | so encoding the decoded value gives back the bytes read if and only if none were lost |
| `CodecLoss.OddByteLost` | wire/decode.go:146-161 | pairs of bytes until the end of the input: of three bytes, the last is lost |
| `CodecCuts.DecodeExtends` | wire/decode.go:31-161 | for self-delimiting schemas the value read does not depend on the bytes after it, which stay in the reader |
| `CodecCuts.OnlyShortInputFails` | wire/decode.go:31-161 | for well-formed schemas, on arbitrary bytes, the only errors are EOF and UnexpectedEOF |
| `CodecCuts.CutNeverDecodes` | wire/decode.go:31-161 | an encoding cut anywhere decodes to no value but to one of these errors |
| `CodecCuts.PrefixFree` | wire/encode.go:37-191 | no encoding begins with that of another value |
| `WireFormat.IntegerOnWire` | wire/encode.go:69-70 | each byte of a written integer, in either byte order, for each of the four widths |
| `WireFormat.TerminatedOnWire` | wire/encode.go:133-147 | a non-empty `nullterm` string is its prefix, which counts the NUL, its characters and the NUL |
| `WireFormat.EmptyOnWire` | wire/encode.go:133-147 | an empty one is a zero prefix and nothing else |
| `WireFormat.StringOnWire` | wire/encode.go:133-147 | without `nullterm` a string is its prefix and its characters |
| `WireFormat.BareString` | wire/decode.go:254-263 | without a prefix only the characters are written, and reading fails |
| `WireFormat.ElementsOnWire` | wire/encode.go:87-100 | the elements of an array follow one another |
| `WireFormat.SliceOnWire` | wire/encode.go:102-131 | a slice without a prefix is its elements |
| `WireFormat.SliceAfterLength` | wire/encode.go:102-131 | with `len_prefix` their number of bytes comes first |
| `WireFormat.SliceAfterCount` | wire/encode.go:102-131 | with `count_prefix` their number comes first |
| `WireFormat.FieldsOnWire` | wire/encode.go:150-180 | the fields of a struct follow one another, each under its own tag |
| `WireFormat.StructOnWire` | wire/encode.go:173-191 | a struct with `len_prefix` is its fields after their number of bytes |
| `WireFormat.OptionalOnWire` | wire/encode.go:47-56 | an optional struct that is there is written like any other, an absent one not at all |
| `WireFormat.ShortInteger` | wire/decode.go:314-333 | an integer cut at its start gives EOF, one cut inside UnexpectedEOF |
| `WireFormat.ShortString` | wire/decode.go:254-263 | the same for the characters that a prefix announces |
| `WireFormat.IntegersToTheEnd` | wire/decode.go:146-161 | a slice of integers up to the end of the input has as many as there are, and is refused exactly when the last one is cut |
| `WireFormat.OptionalRead` | wire/decode.go:42-58 | an optional struct is absent exactly when reading it gives EOF; any other error stands |
| `WireFormat.BothPrefixes` | wire/encode.go:42-45 | both prefixes together are refused before anything is read or written |
| `WireFormat.PointerErrors` | wire/encode.go:47-59 | which error a pointer that is not optional gives, an optional that is no pointer, and a pointer to something else than a struct |
| `WireFormat.PointerFieldErrors` | wire/encode.go:157-166 | which error a pointer field gives that is not the last one, or points to something else than a struct |
| `WireFormat.UnsupportedKinds` | wire/encode.go:61-76 | other kinds are neither written nor read, alone or as elements |
| `CodecStreams.Reader.Full` | wire/decode.go:121-128 | reads exactly n bytes, or fails with EOF or UnexpectedEOF as io.ReadFull does |
| `CodecStreams.Unmarshal` | wire/decode.go:31-94 | the stepwise decoder over a reader agrees with the decode function in value, error and rest |
| `CodecStreams.UnmarshalArray` | wire/decode.go:96-109 | the array loop agrees with the decode function |
| `CodecStreams.UnmarshalSlice` | wire/decode.go:111-161 | the three slice loops agree with the decode function |
| `CodecStreams.UnmarshalUntilEmpty` | wire/decode.go:113-135 | the length-prefixed loop stops when its frame is empty |
| `CodecStreams.UnmarshalUntilEOF` | wire/decode.go:146-161 | the rest loop stops at EOF and reports any other error |
| `CodecStreams.CutAtNul` | wire/decode.go:266-272 | a `nullterm` string is cut at its first NUL |
| `CodecStreams.UnmarshalStruct` | wire/decode.go:281-312 | a struct is decoded from its own frame when it has a length prefix |
| `CodecStreams.UnmarshalEachField` | wire/decode.go:295-311 | the field loop, with its pointer rules, agrees with the decode function |
| `CodecStreams.Marshal` | wire/encode.go:37-76 | the stepwise encoder over a writer appends the specified bytes or gives the specified error |
| `CodecStreams.MarshalElems` | wire/encode.go:87-118 | the element loop appends the specified bytes |
| `CodecStreams.MarshalSlice` | wire/encode.go:102-131 | a slice goes through its own buffer and gets its prefix from it |
| `CodecStreams.MarshalStruct` | wire/encode.go:149-191 | a struct with a length prefix goes through its own buffer |
| `CodecStreams.MarshalEachField` | wire/encode.go:150-180 | the field loop appends the specified bytes |
| `Cookie.IssueExactly` | state/cookie.go:54-85 | a token is minted if and only if the payload has at most 214 bytes, and then has 256 bytes |
| `Cookie.CrackIssued` | state/cookie.go:89-110 | a minted token cracks, padding and all, to its payload and expiry until the expiry second has passed |
| `Cookie.CrackedIsAuthentic` | state/cookie.go:89-97 | an accepted token begins with the encoding of a body and of that body's MAC under the key |
| `Cookie.HMACCookieBaker.Mint` | state/cookie.go:54-85 | the buffer-filling method computes the specified token |
| `Cookie.HMACCookieBaker.Verify` | state/cookie.go:89-110 | the stepwise check computes the specified answer |
| `Cookie.IssuedBytes` | state/cookie.go:54-85 | the bytes of a token: expiry second, data and MAC, each after its length, padded to 256 |
| `Cookie.AcceptedWhileAlive` | state/cookie.go:89-110 | a token is accepted until its life is over, less at most a second, and never afterwards |
| `Tlv.BytesSet` | wire/tlv.go:148-160 | after Set a tag reads back the new value and no other tag reads differently |
| `Tlv.BytesRemove` | wire/tlv.go:163-173 | after Remove a tag is gone and no other tag reads differently |
| `Tlv.SetInPlace` | wire/tlv.go:148-160 | Set replaces every TLV of the tag in its place, or appends one |
| `Tlv.RemoveInPlace` | wire/tlv.go:163-173 | Remove keeps the order of the others |
| `Tlv.IdsRoundTrip` | wire/tlv.go:301-314 | a list of 16-bit ids packed into a TLV reads back |
| `Tlv.MovedBeforeKeepsIds` | state/feedbag_list.go:479-504 | reordering loses, adds and duplicates no id and puts the moved one just before its mark |
| `FeedbagItems.GenIdFresh` | state/feedbag_list.go:583-601 | with at most 32766 items, for every random start, genID gives a non-zero id that is no item's group or item id |
| `FeedbagItems.GenIdExhausted` | state/feedbag_list.go:583-601 | genID gives 0 if and only if every id but 0 and the one below the start is taken |
| `FeedbagItems.GenIdCanFail` | state/feedbag_list.go:583-601 | 32767 items can exhaust it |
| `FeedbagItems.NormalizedName` | state/user.go:47-51 | a name is normalized character by character: spaces go, capitals become small |
| `FeedbagItems.IdentIdempotent` | state/user.go:47-51 | normalizing a screen name twice changes nothing more |
| `FeedbagList.SetTlv` | wire/tlv.go:148-160 | the overwriting loop with its append computes Set |
| `FeedbagList.RemoveTlv` | wire/tlv.go:163-173 | the loop computes Remove |
| `FeedbagList.FilterOut` | wire/snacs.go:2857-2868 | the loop keeps the ids other than one |
| `FeedbagList.List.InUse` | state/feedbag_list.go:589-595 | finds out whether any item uses an id |
| `FeedbagList.List.GenId` | state/feedbag_list.go:583-601 | the wrapping loop computes the specified id |
| `FeedbagList.List.Locate` | state/feedbag_list.go:436-460 | finds the first item that satisfies a condition |
| `FeedbagList.List.TrackUpdate` | state/feedbag_list.go:507-514 | logs an item at most once |
| `FeedbagList.List.UpsertItem` | state/feedbag_list.go:559-579 | replaces the matching item in place or appends one with a new id, and logs what changed |
| `FeedbagList.List.DeleteItem` | state/feedbag_list.go:541-554 | removes the first matching item and logs it |
| `FeedbagList.List.RootGroup` | state/feedbag_list.go:417-434 | finds the root group or creates and logs it |
| `FeedbagList.List.AppendOrderMember` | wire/snacs.go:2846-2849 | appends an id to an item's order TLV and to nothing else |
| `FeedbagList.List.RemoveOrderMember` | wire/snacs.go:2853-2869 | removes an id from an item's order TLV, if it has one |
| `FeedbagList.List.AddGroup` | state/feedbag_list.go:83-102 | the whole new list and logs after AddGroup |
| `FeedbagList.List.DeleteGroup` | state/feedbag_list.go:105-131 | the whole new list and logs after DeleteGroup |
| `FeedbagList.List.RenameGroup` | state/feedbag_list.go:208-226 | the whole new list and logs, or which error |
| `FeedbagList.List.SetGroupCollapsed` | state/feedbag_list.go:295-307 | the whole new list and logs, or which error |
| `FeedbagList.List.AddBuddyItem` | state/feedbag_list.go:148-165 | the whole new list and logs, whether it was new, or which error |
| `FeedbagList.List.AddBuddy` | state/feedbag_list.go:135-145 | the same with the alias and note attributes |
| `FeedbagList.List.DeleteBuddy` | state/feedbag_list.go:170-203 | the whole new list and logs, for one group or for all |
| `FeedbagList.List.MoveBuddy` | state/feedbag_list.go:232-271 | the whole new list and logs, or which error |
| `FeedbagList.List.ReorderInGroup` | state/feedbag_list.go:479-504 | the order TLV after a move within the group |
| `FeedbagList.List.SetBuddyAlias` | state/feedbag_list.go:276-292 | sets or clears the alias of every buddy of the name |
| `FeedbagList.List.DeleteLinkedScreenName` | state/feedbag_list.go:350-362 | deletes a linked account and touches the root |
| `FeedbagOrder.InsertBuddy` | state/feedbag_list.go:148-165 | a new buddy and its id in the group's order keep the list consistent |
| `FeedbagOrder.RemoveBuddy` | state/feedbag_list.go:170-203 | taking a buddy out together with its id keeps the list consistent |
| `FeedbagOrder.InsertGroup` | state/feedbag_list.go:83-102 | a new group and its id in the root's order keep the list consistent |
| `FeedbagOrder.RemoveGroup` | state/feedbag_list.go:105-131 | taking a group's items out together with its id in the root keeps the list consistent |
| `FeedbagRuns.MoveBuddyKeeps` | state/feedbag_list.go:232-271 | MoveBuddy keeps the order invariant |
| `FeedbagDeletion.DeleteAllExactly` | state/feedbag_list.go:112-119 | deleting the gathered members by match deletes just those items when none of them is a trap, that is the group named like the root before it |
| `FeedbagDeletion.DeleteGroupExactly` | state/feedbag_list.go:105-131 | DeleteGroup keeps the order invariant if and only if it is not asked for the unnamed group behind the root |
| `FeedbagDeletion.EditKeepsOrder` | state/feedbag_list.go:83-362 | every permitted edit keeps the order invariant |
| `FeedbagDeletion.OrderAfterRun` | state/feedbag_list.go:83-579 | after any permitted run from an empty list: each group's order lists exactly its buddies once each, the root's exactly the groups once each, keys are unique, names are unique |
| `FeedbagRoster.EditMeans` | state/feedbag_list.go:83-362 | every permitted edit changes which groups there are and who is in them in just the way its name says, and nothing else of that |
| `FeedbagRoster.AddGroupMeans` | state/feedbag_list.go:83-102 | a new group of that name under an id no item had, unless there was one |
| `FeedbagRoster.DeleteGroupMeans` | state/feedbag_list.go:105-131 | the group and all its buddies leave, everybody else stays |
| `FeedbagRoster.RenameGroupMeans` | state/feedbag_list.go:208-226 | the group has the new name and its buddies are still in it, unless the new name is taken |
| `FeedbagRoster.AddBuddyMeans` | state/feedbag_list.go:148-165 | the buddy is in the group under its normalized name, if there is such a group |
| `FeedbagRoster.DeleteBuddyMeans` | state/feedbag_list.go:170-203 | the buddy leaves the named group, or every group for "*" |
| `FeedbagRoster.MoveBuddyMeans` | state/feedbag_list.go:232-271 | the buddy leaves the one group and joins the other, if both groups and the buddy are there |
| `FeedbagRoster.RepositionPlaces` | state/feedbag_list.go:261-271 | after a move before another buddy of the group, its id directly precedes the other's in the order, which keeps its ids |
| `FeedbagPlaces.AddBuddyPlaces` | state/feedbag_list.go:148-165 | a new buddy comes last in its group, a known one keeps its place, and either has exactly the attributes given |
| `FeedbagPlaces.DeleteFromPlaces` | state/feedbag_list.go:188-203 | the id leaves the order, in which the others stay as they were |
| `FeedbagPlaces.MoveWithin` | state/feedbag_list.go:232-271 | a move within the group puts the buddy directly before the mark and logs the group, the others keeping their order; without a mark nothing changes; before itself it goes last |
| `FeedbagPlaces.MoveAcross` | state/feedbag_list.go:232-271 | a move to another group takes the attributes along and puts the buddy last, or directly before the mark |
| `FeedbagPlaces.AddedAttributes` | state/feedbag_list.go:135-145 | a buddy is added with the alias and the note that are not empty, and nothing else |
| `FeedbagPlaces.AddedAgain` | state/feedbag_list.go:559-575 | a buddy that was there gets the attributes and nothing else changes; it is logged unless it had them |
| `FeedbagPlaces.AliasingMeans` | state/feedbag_list.go:276-292 | every buddy of the name has the new alias, or none, and is logged; no other attribute and no other item changes |
| `FeedbagPlaces.CollapseExactly` | state/feedbag_list.go:295-307 | the group has the collapsed mark or not, as asked, and is logged; nothing else changes |
| `FeedbagPlaces.RenameExactly` | state/feedbag_list.go:208-226 | the group has the new name and nothing else changes; it is logged unless the name is the old one |
| `FeedbagPlaces.AddGroupPlaces` | state/feedbag_list.go:83-102 | a new group has no attributes and comes last in the order of the root |
| `FeedbagPlaces.DeleteGroupPlaces` | state/feedbag_list.go:105-131 | a deleted group leaves the order of the root, in which the others stay as they were |
| `FeedbagPlaces.EntryReplaced` | state/feedbag_list.go:559-575 | an entry outside the groups that is set takes the place and id of the first of its class and name, and is logged if that makes a difference |
| `FeedbagPlaces.EntryAdded` | state/feedbag_list.go:559-579 | without one, it is the last item under a new id, and logged |
| `FeedbagPlaces.EntryDeleted` | state/feedbag_list.go:541-550 | the first entry of the class and name leaves the list and is logged; without one nothing changes |
| `FeedbagPlaces.LinkedDeleted` | state/feedbag_list.go:350-362 | a linked account leaves and the root, made if need be, is logged; without one nothing changes |
| `FeedbagPlaces.GroupErrors` | state/feedbag_list.go:208-307 | which error renaming and collapsing give, from the groups there are; with an error nothing changes |
| `FeedbagPlaces.BuddyErrors` | state/feedbag_list.go:148-203 | the same for adding and deleting buddies |
| `FeedbagPlaces.MoveErrors` | state/feedbag_list.go:232-271 | the same for moving |
| `FeedbagSync.EditTracks` | state/feedbag_list.go:83-579 | every edit keeps the invariant between list, logs and database |
| `FeedbagSync.RunTracks` | state/feedbag_list.go:83-579 | so does every run that leaves genID room |
| `FeedbagReplay.UpdatesFirstExactly` | state/user_store.go:1000-1066 | upserting the updates and then deleting the deletes makes the store equal to the list if and only if no live item has a deleted item's key |
| `FeedbagReplay.DeletesFirstExactly` | state/user_store.go:1000-1066 | the other order does if and only if every logged update is under a live key |
| `FeedbagReplay.ReplayAfterRun` | state/feedbag_list.go:385-406 | both conditions, after any run of edits from a list equal to its store |
| `FeedbagReplay.FreshStart` | state/feedbag_list.go:36-45 | a list read back from an equal store starts with sound, empty logs |
| `FeedbagReuse.ReplaySucceeds` | state/feedbag_list.go:385-406 | from an ordered list equal to its store, after any permitted run in which no new item takes an id of a pending delete, the replay with the updates first makes the store equal to the list |
| `FeedbagExamples.ReuseLosesItem` | state/feedbag_list.go:541-601 | from a list equal to its store, one buddy deleted and another added under the same key: the replay with the updates first loses the new one's row |
| `FeedbagExamples.DeletedUpdateReturns` | state/feedbag_list.go:276-292 | from a list equal to its store, one buddy's alias cleared and the buddy deleted: the replay with the deletes first brings it back |
| `FeedbagExamples.UnnamedGroupTakesRoot` | state/feedbag_list.go:105-131 | from the empty list, adding a group and an unnamed one and deleting the unnamed one ends the order invariant |
| `UserLocks.MutualExclusion` | state/session_manager.go:58-88 | over every interleaving two threads never hold locks for one name, across deletion and re-creation; refCount is holders plus waiters plus the leaving thread; an entry exists exactly while that is positive |
| `UserLocks.LeavingIsSafe` | state/session_manager.go:73-88 | unlockUser always finds its entry, unlocks a lock that is held, and never counts below zero |
| `UserLocks.WaiterProceeds` | state/session_manager.go:58-88 | a waiter can enter exactly when no one is inside, and whoever is inside can go on to leave |
| `UserLocks.Refines` | state/session_manager.go:58-88 | every step is a step of one atomic lock a name, or changes nothing |
| `UserLocks.ThreadGoesOn` | state/session_manager.go:58-88 | each step takes its thread, and no other, one further through the lock: four steps after entering it is out |
| `UserLocks.GuardsExactly` | state/session_manager.go:58-88 | which step a thread can make: it needs the table mutex to enter and to leave, and the lock free to go inside |
| `UserLocks.GoesIn` | state/session_manager.go:58-70 | alone, a thread makes the lock object and is inside |
| `UserLocks.GoesOut` | state/session_manager.go:73-88 | and out again, with the entry gone |
| `SessionManager.AtMostOneOpen` | state/session_manager.go:205-287 | over every interleaving each name has at most one un-closed session, the store has it, and no session exceeds five instances |
| `SessionManager.StaleRemoveEvictsNothing` | state/session_manager.go:299-306 | RemoveSession of a closed session takes out its own slot or nothing, never an open session |
| `SessionManager.NoLostWakeUp` | state/session_manager.go:220-261 | a waiting call waits on a given signal or on a slot still in the store whose removal will give it; a woken call finds the name free |
| `SessionManager.AbandonedExactly` | state/session_manager.go:228-232 | a slot leaves the store unsignalled if and only if a multi-session sign-on publishes over a single-session slot it closed |
| `SessionManager.ReplacementAbandons` | state/session_manager.go:228-232 | a run from the start in which that happens |
| `SessionManager.AbandonedForever` | state/session_manager.go:299-306 | such a slot is never signalled, and no call ever waits on it |
| `SessionManager.SignOnSucceeds` | state/session_manager.go:205-287 | a successful sign-on yields an instance of the name's one open session, which the store has |
| `SessionManager.CallEndsExactly` | state/session_manager.go:205-287 | a call ends by publishing a session, joining an open one, being cancelled while it waits, or being refused by five instances, and in no other way |
| `SessionManager.CallAdvances` | state/session_manager.go:205-263 | each step of a call brings it nearer to its end, and no other step touches it |
| `SessionManager.CallIsShort` | state/session_manager.go:205-263 | over every interleaving a call has ended after at most six steps of its own |
| `SessionManager.OneWayOn` | state/session_manager.go:220-261 | a call has one way on, but for a wait, which can also be cancelled; a multi-session call joins exactly a multi-session |
| `SessionManager.SomeWayOn` | state/session_manager.go:220-261 | and it always has one |
| `SessionManager.WokenSignsOn` | state/session_manager.go:222-263 | a woken call publishes, and then the store has an open session of its name |
| `SessionManager.FirstAlone` | state/session_manager.go:205-287 | the steps and the whole new state of a sign-on to a free name |
| `SessionManager.TombstoneAlone` | state/session_manager.go:220-229 | of one that finds a closed session |
| `SessionManager.SingleAlone` | state/session_manager.go:251-263 | of a single-session one that finds an open session |
| `SessionManager.ReplacingAlone` | state/session_manager.go:231-236 | of a multi-session one that finds a single session |
| `SessionManager.JoiningAlone` | state/session_manager.go:243-250 | of one that joins |
| `SessionManager.RefusedAlone` | state/session_manager.go:238-241 | of one that is refused |
| `SessionManager.ClosesExactly` | state/session_manager.go:231-254 | a session closes when it is told to, by a sign-on, or with its last instance |
| `SessionManager.InstancesExactly` | state/session_manager.go:238-250 | its instances are those joined less those departed |
| `SessionManager.SlotExactly` | state/session_manager.go:299-306 | its slot leaves the store when it is removed, which gives the signal, or when a sign-on publishes over it |
| `SessionCore.NumberFound` | state/session.go:228-238 | a number is found if and only if one of the 255 is free |
| `SessionCore.AddExactly` | state/session.go:131-155 | refused exactly once closed, no number exactly when all 255 are taken, and otherwise the least free number |
| `SessionCore.Session.GenerateInstanceNum` | state/session.go:228-238 | the 8-bit loop finds the least free number, or none |
| `SessionCore.Session.AddInstance` | state/session.go:131-155 | refused once closed; otherwise a new instance at the end of the list |
| `SessionCore.Session.RemoveInstanceAndMaybeClose` | state/session.go:192-224 | removes the instance from map and list and closes the session with the last one |
| `SessionCore.Session.MarkClosed` | state/session.go:675-683 | closes the session and changes nothing else |
| `SessionCore.AddListed` | state/session.go:131-155 | adding keeps map and list in agreement, the new instance last |
| `SessionCore.DetachListed` | state/session.go:192-224 | removing keeps map and list in agreement and takes out just that instance |
| `SessionLifecycle.ThreadGoesOn` | state/session.go:632-648 | each step of a closing thread: to the snapshot, from one instance to the next, to removal and callback, and out |
| `SessionLifecycle.CallBegins` | state/session.go:632-648 | closing an instance marks it, unless it is marked; closing the session marks that first |
| `SessionLifecycle.ShutExactly` | state/session.go:1242-1263 | an instance is marked closed by its own closing or by that of the session |
| `SessionLifecycle.DetachedExactly` | state/session.go:192-224 | it leaves the list when the thread that closed it removes it |
| `SessionLifecycle.ClosesExactly` | state/session.go:192-224 | the session closes by CloseSession or with its last instance |
| `SessionLifecycle.FiresExactly` | state/session.go:1242-1263 | the callback is called in its own step only |
| `SessionLifecycle.CallbackExactlyOnce` | state/session.go:1242-1263 | over every interleaving the close callback fires at most once, and it was or is about to be called exactly when the last instance ever added is gone |
| `SessionLifecycle.ListingIsExact` | state/session.go:131-224 | the ordered list has exactly the instances of the map, once each, in order of addition, under distinct numbers |
| `SessionLifecycle.ClosedForGood` | state/session.go:131-141 | a closed session stays closed and gets no instance |
| `SessionLifecycle.CloseSessionClosesAll` | state/session.go:632-648 | when CloseSession is through, every instance ever added is closed, and stays so |
| `SessionComposition.RunRefines` | state/session_manager.go:205-218 | every run of the user locks and the manager together is a run of the manager: that no other call has the name is what the locks provide |
| `SessionComposition.AtMostOneOpen` | state/session_manager.go:205-287 | under the real locks each name has at most one un-closed session, which the store has |
| `SessionComposition.LifecycleRefines` | state/session.go:131-224 | each step of a session's instance table is a successful attach, a departure or a close of the manager's counters, or nothing to them |
| `RateLimit.NewLevelExactly` | wire/rate_limit.go:500-509 | for a gap of any length and either sign the 32-bit average is the intended one if and only if the weighted sum fits, or is too large and wraps to a value the clamp hides |
| `RateLimit.LongSilenceDisconnects` | wire/rate_limit.go:500-516 | a gap of 2^31 ms disconnects a user of the first default class |
| `RateLimit.LevelBounds` | wire/rate_limit.go:500-509 | the new average is within the class's range and is the truncated weighted mean or the maximum |
| `RateLimit.LevelFalls` | wire/rate_limit.go:500-509 | a gap below the average strictly lowers it |
| `RateLimit.LevelHolds` | wire/rate_limit.go:500-509 | gap and average at least a leave the average at least a |
| `RateLimit.DefaultsSane` | wire/rate_limit.go:48-98 | the default classes have their levels in order and room in 32 bits |
| `RateHysteresis.AnswerExactly` | wire/rate_limit.go:511-528 | which answer the new average gives, for a class that was limited and for one that was not |
| `RateHysteresis.ObservationExactly` | state/session.go:477-510 | an observation lifts a limit exactly at the clear level, and only then credits the time |
| `RateHysteresis.StillLimited` | wire/rate_limit.go:516-519 | a limited user of the first class at 1600 stays limited, though the limit is 1500 |
| `RateHysteresis.LimitedUntil` | state/session.go:454-510 | over every run a limited class answers Limited, and no observation lifts the limit, up to the first event that finds its average at the clear level or disconnects |
| `RateHysteresis.NoRelief` | state/session.go:454-510 | without warnings and with gaps below the clear level no message of a limited class is answered Clear or Alert before one is answered Disconnect |
| `RateHysteresis.NoReliefBeforeDisconnect` | state/session.go:454-510 | the first message that is not answered Limited is then a Disconnect |
| `RateHysteresis.ClosesExactly` | state/session.go:469-472 | a session closes exactly when a message is answered Disconnect; bots are untouched |
| `RateRuns.Throughput` | state/session.go:454-510 | n messages in a row that are not held back take at least n*L - (window-1)*(X-L) ms, X being the average at the start, at most max, with warnings and observations in between and gaps of either sign |
| `RateRuns.ThroughputIsMet` | state/session.go:454-474 | that bound is met for every n, by a run that starts with the average at the limit |
| `RateRuns.TooFastIsHeld` | state/session.go:454-474 | with every gap at most g below the limit, one of max - g messages is answered Limited or Disconnect |
| `RateRuns.SlowIsClear` | state/session.go:454-474 | with level and gaps at least a, and thresholds at most a, every message is answered Clear |
| `RateRuns.AlertPaceIsClear` | wire/rate_limit.go:511-528 | without warnings, pacing at the alert level is enough |
| `RateRuns.WarningsScale` | state/session.go:553-603 | after n accepted warnings the warning is in 0..1000 and each threshold, clamps included, is within n of its original plus headroom * warning / 1000, between original and maximum |
| `RateRuns.WarningUndoneExactly` | state/session.go:586-598 | a warning and its decay give a threshold back if and only if raising it stayed within the maximum |
| `RateRuns.UndoneFails` | state/session.go:586-598 | a run of accepted warnings and decays after which a warning of 202 is not undone by its decay |
| `RateSession.RateSession.EvaluateRateLimit` | state/session.go:454-474 | one message step of the run model; bots are exempt, Disconnect closes the session |
| `RateSession.RateSession.ObserveRateChanges` | state/session.go:477-510 | one observation step over all subscribed classes |
| `RateSession.RateSession.ScaleWarningAndRateLimit` | state/session.go:553-603 | one warning step, refused above 1000 |
| `ConvoLimits.RingCountsExactly` | foodgroup/icbm.go:904-918 | for every start of the hour the three-slot ring counts min(3, what the whole log counts) if and only if no earlier time is later than one of the last three |
| `ConvoLimits.RingCounts` | foodgroup/icbm.go:904-918 | with a clock that never runs backwards the three-slot ring counts min(3, what the whole log counts) |
| `ConvoLimits.RingNeedsOrder` | foodgroup/icbm.go:904-918 | a log, with a clock that runs backwards, of which it misses a time |
| `ConvoLimits.WarningsPerHour` | foodgroup/icbm.go:857-901 | for each cache key, over every run: at an allowed warning the hour holds at most three warnings of the entry, at most one for each message, and at most six in all |
| `ConvoPairs.KeysClashExactly` | foodgroup/icbm.go:899-901 | two pairs share a key if and only if they are equal, or one sender's name begins the other's and what is left of that begins the one recipient's |
| `ConvoPairs.PairLimits` | foodgroup/icbm.go:820-897 | for a warner and a warnee whose key no other pair of the run shares: the limits of `WarningsPerHour` on the messages and warnings between the two |
| `ConvoPairs.StrangerWarned` | foodgroup/icbm.go:857-901 | when another pair shares the key, its message lets the warner warn somebody who never wrote |
| `ConvoPairs.NumbersClash` | foodgroup/icbm.go:857-901 | that happens between plain ICQ numbers |
| `ConvoTracker.WarnStranger` | foodgroup/icbm.go:841-901 | on a new tracker, the two calls for those numbers end in an allowed warning |
| `ConvoPairs.PairLimitsExactly` | foodgroup/icbm.go:820-901 | over all runs of a set of pairs the limits hold for a pair if and only if no other pair of the set shares its key |
| `ConvoPairs.LifetimeBreaksExactly` | foodgroup/icbm.go:820-897 | at any time of any run, some continuation within the lifetime of the current entry breaks the documented limits if and only if a warning from before the entry is less than an hour old and the entry counts fewer than three |
| `ConvoPairs.TwoLifetimesOverrun` | foodgroup/icbm.go:857-897 | for every pair, a run across two lifetimes with three warnings for two messages in an hour |
| `ConvoPairs.SixInAnHour` | foodgroup/icbm.go:857-897 | for every pair, a run that reaches the bound of six warnings in an hour |
| `ConvoTracker.RingBuffer.Put` | foodgroup/icbm.go:915-918 | writing a slot appends to the log the ring stands for |
| `ConvoTracker.RingBuffer.CountAfter` | foodgroup/icbm.go:868-873 | the counting loop counts the last three of the log |
| `ConvoTracker.Tracker.TrackConvo` | foodgroup/icbm.go:841-851 | the method makes the specified step |
| `ConvoTracker.Tracker.TrackWarn` | foodgroup/icbm.go:857-897 | the method makes the specified step and gives the specified verdict |
| `BuddyPrefs.SharedPlace` | wire/buddy_prefs.go:132-155 | in masks of any length two preferences share a bit if and only if they are equal or are 32 and 33 |
| `BuddyPrefs.LowBits` | wire/buddy_prefs.go:132-155 | the byte and the bit of each low preference, counted from the right |
| `BuddyPrefs.HighBits` | wire/buddy_prefs.go:132-155 | and of each high one, counted from the left |
| `BuddyPrefs.NoMasks` | wire/buddy_prefs.go:260-282 | without one of its masks a preference is absent |
| `BuddyPrefs.AbsentPrefs` | wire/buddy_prefs.go:158-255 | which preferences are on while they are absent |
| `BuddyPrefs.MaskLengths` | wire/buddy_prefs.go:294-308 | both masks grow to what the preference needs and no further |
| `BuddyPrefs.SetReadsBack` | wire/buddy_prefs.go:284-321 | in any list, a preference set reads back as set and valid, and no TLV of another kind changes |
| `BuddyPrefs.SetKeepsOthersExactly` | wire/buddy_prefs.go:282-321 | in all lists with masks of given lengths, setting a preference keeps the meaning of all others but its twin if and only if, for the low masks, the valid one is empty or as long as the value one; for the high masks, the valid one is no longer than the value one or the value one reaches past the last preference number |
| `BuddyPrefs.SetKeepsOthers` | wire/buddy_prefs.go:282-321 | in a list with such masks it keeps the meaning and the effective value of each other preference |
| `BuddyPrefs.SetIsLocalExactly` | wire/buddy_prefs.go:282-321 | over all lists with such masks, and over all aligned lists, setting p leaves q as it is if and only if they are not equal and not 32 and 33 |
| `BuddyPrefs.MisalignedMasksMove` | wire/buddy_prefs.go:282-321 | a list with four valid bytes and three value bytes in which setting preference 1 turns preference 8 on |
| `BuddyPrefs.RunOverStored` | server/webapi/preference_handler.go:227-243 | over any stored list with such masks, a run of settings reads as what was set and otherwise as stored |
| `BuddyPrefs.RunRefinesMap` | wire/buddy_prefs.go:250-321 | any run of settings from an empty list refines a plain map |
| `BuddyPrefs.PrefIsLastSetOrDefault` | wire/buddy_prefs.go:250-255 | after any run a preference has the value last set for its bit, or its default |
| `BuddyPrefs.SetInPlace` | wire/buddy_prefs.go:284-339 | the method on copied and grown mask arrays computes the specified list |
| `RelationshipTables.RelatedExactly` | state/relationship.go:88-133 | two users have a row if and only if both have registered a list and one of the two has a row about the other |
| `RelationshipTables.PrefsExactly` | state/relationship.go:75-107 | the privacy items of a row are the two users' own |
| `RelationshipTables.RowFromTables` | state/relationship.go:109-126 | all four columns of a row from the rows of the tables |
| `RelationshipTables.FeedbagUserBlocks` | state/relationship.go:109-116 | whom a user on feedbag with one privacy item blocks, mode by mode, and nobody without an item |
| `RelationshipTables.AnswerFromTables` | state/relationship.go:174-185 | what is answered about one user: all false without a row, and otherwise what a row says |
| `RelationshipTables.ListedIsLetThrough` | state/relationship.go:114 | a user who lets through those on the list only does not block a plain buddy |
| `Relationship.MirrorSymmetric` | state/relationship.go:22-133 | (me, them) has a row if and only if (them, me) has the mirrored one, with blocks and lists swapped |
| `Relationship.FilterExactly` | state/relationship.go:199-214 | the result for a list of names is the unfiltered one restricted to them if and only if there is a name or the unfiltered result is empty; its rows are always unfiltered rows |
| `Relationship.EmptyFilterReturnsAll` | state/relationship.go:199-214 | two users for whom an empty list of names answers about the other one |
| `Relationship.OneRowExactly` | state/relationship.go:75-107 | a related user has one row if and only if neither side has more than one privacy item |
| `Relationship.AnswersMirror` | state/relationship.go:174-185 | with at most one privacy item each, Relationship(me, them) and Relationship(them, me) are each other's mirror |
| `Privacy.SetPDModeFlags` | state/user_store.go:1109-1199 | a new mode drops my permit and deny flags and nothing else; the mode already set changes nothing |
| `Privacy.ForEachFlags` | state/user_store.go:1201-1262 | a request changes one flag of exactly the users it names |
| `Privacy.SelfRequests` | foodgroup/permit_deny.go:37-94 | a request that names oneself alone permits or denies everybody; with others it does not |
| `Privacy.Switches` | state/user_store.go:1097-1107 | a switch to the stored list marks the user alone |
| `Privacy.OwnRequest` | foodgroup/permit_deny.go:37-128 | each of my requests keeps the tables in the state of my policy |
| `Privacy.OthersRequest` | foodgroup/permit_deny.go:37-128 | requests of others leave my policy alone |
| `Privacy.RunFollows` | state/user_store.go:1078-1262 | after any run, deny flags exist exactly for the list of DenySome and permit flags exactly for the list of PermitSome |
| `Privacy.RowsFollowPolicy` | state/relationship.go:109-116 | for a user not on feedbag, every relationship row, from both sides, says that the user blocks exactly whom the policy blocks |
| `Privacy.UnregisteredHasNoRows` | state/user_store.go:1078-1095 | a user without a registered list has no rows |
| `PrivacyStore.Store.SetPDMode` | state/user_store.go:1109-1199 | the statements of the transaction make the specified change |
| `PrivacyStore.Store.AddDenyListEntries` | foodgroup/permit_deny.go:37-62 | the mode change and the loop make the specified change |
| `PrivacyStore.Store.AddPermListEntries` | foodgroup/permit_deny.go:69-94 | the mode change and the loop make the specified change |
| `PrivacyStore.Store.DelDenyListEntries` | foodgroup/permit_deny.go:98-111 | the loop makes the specified change |
| `PrivacyStore.Store.DelPermListEntries` | foodgroup/permit_deny.go:115-128 | the loop makes the specified change |
| `AuthorizationLaws.DecimalNumber` | state/user.go:41-44 | a name of digits is read as a decimal number, held to 64 bits |
| `AuthorizationLaws.SignedNumber` | state/user.go:41-44 | with a sign in front, too |
| `AuthorizationLaws.NoNumber` | state/user.go:41-44 | everything else reads as 0 and is no ICQ number |
| `AuthorizationLaws.IcqNumbers` | state/user.go:41-44 | a number of 32 bits other than 0 is an ICQ number |
| `AuthorizationLaws.RefusedExactly` | foodgroup/feedbag.go:204-236 | a request is refused, with the first reason, if and only if it has a deny entry for oneself or a linked account |
| `AuthorizationLaws.RefusedChangesNothing` | foodgroup/feedbag.go:204-236 | and then changes nothing |
| `AuthorizationLaws.OtherItem` | foodgroup/feedbag.go:243-298 | an item that is no buddy is stored as it is |
| `AuthorizationLaws.AimBuddy` | foodgroup/feedbag.go:250-257 | a buddy who is no ICQ user is stored as it is; an ICQ user who adds it consents at once |
| `AuthorizationLaws.FreeIcqBuddy` | foodgroup/feedbag.go:258-280 | an ICQ buddy who asks for no authorization or has given it is stored as it is |
| `AuthorizationLaws.BlockedIcqBuddy` | foodgroup/feedbag.go:258-296 | a blocked one is stored with the pending mark that an ICQ user sends along and an AIM user gets, and not at all when an ICQ user sends none |
| `AuthorizationLaws.StaleMark` | foodgroup/feedbag.go:272-277 | a mark no longer needed is taken off, and every other attribute stays |
| `AuthorizationLaws.StoresLast` | state/user_store.go:1013-1066 | of the items under one key the last one is stored |
| `AuthorizationLaws.StoresNoOther` | state/user_store.go:1013-1066 | and no other row changes |
| `AuthorizationLaws.DeleteExactly` | state/user_store.go:1000-1011 | a deletion takes out the rows under the keys of its items and nothing else |
| `AuthorizationLaws.Declined` | foodgroup/feedbag.go:733-755 | a request that is not accepted changes nothing, and nobody authorizes himself |
| `AuthorizationLaws.Accepted` | foodgroup/feedbag.go:733-755 | what an accepted request and a consent given in advance change: the consents and, online, one mark |
| `Authorization.StoredMeansAuthorized` | foodgroup/feedbag.go:203-298 | in every state reached by upserts, deletions, grants and denials, each stored plain buddy row of an ICQ owner has the owner's consent |
| `Authorization.ConsentStays` | state/user_store.go:549-587 | consent once given is never taken back |
| `Authorization.UpsertOneBuddy` | foodgroup/feedbag.go:243-298 | one buddy item naming an ICQ user is withheld, or stored pending, or stored plain, exactly as blocked, pending and the sender's network say |
| `Authorization.WithheldExactly` | foodgroup/feedbag.go:243-298 | each item is judged as if it came alone, and a name is withheld exactly when an item of that name is |
| `Authorization.NothingLost` | foodgroup/feedbag.go:243-298 | everything not withheld is stored, in the order of the request, and nothing else |
| `Authorization.GrantUnblocks` | foodgroup/feedbag.go:733-755 | an accepted request lifts the block, turns the found row plain while the requester is online, and changes no other row |
| `Authorization.GrantNeedsUsersExactly` | state/user_store.go:571-587 | a grant to a blocked requester leaves the block if and only if the requester is not registered |
| `AuthorizationService.FeedbagService.UpsertItem` | foodgroup/feedbag.go:203-311 | the two passes over the items make the specified change and answer 0x000E exactly for names withheld |
| `AuthorizationService.AnswerExactly` | foodgroup/feedbag.go:300-311 | the status of each item is 0x000E exactly when an item of its name was withheld, and 0 otherwise |
| `AuthorizationService.FeedbagService.Judge` | foodgroup/feedbag.go:247-296 | one turn of the switch decides and records as specified |
| `AuthorizationService.FeedbagService.FeedbagUpsert` | state/user_store.go:1013-1066 | the loop stores every item under its key, names normalized |
| `AuthorizationService.FeedbagService.FeedbagDelete` | state/user_store.go:1000-1011 | the loop deletes every item's key |

## Left out

- Sockets, FLAP connections, HTTP, TOC, Kerberos and the legacy ICQ transport: plumbing around the modelled core.
- SQLite, its errors and transactions, migrations and directory searches: the tables used are maps from their keys.
- Reflection: the walk over Go types is recursion over a schema; interface fields and `ICQMessageReplyEnvelope` are encode-only and left out, as are the per-client decode quirks.
- Arrays and slices whose elements are neither structs nor unsigned integers nor (nested) arrays of those integers: some of them, such as signed integers or arrays of structs, encoding/binary can write, which the model does not follow; the parser reads none of the former.
- `WireFormat.PointerErrors`: decoding into an optional field that is no pointer, and an optional pointer outside a struct to something else than a struct, are panics of the reflection library in the source and errors here.
- `FeedbagItems.IdentIdempotent`: screen names are strings without Unicode case folding; `Ident` lowers ASCII letters and drops spaces.
- `TagParser.ParseOSCARTag`: trims spaces, tabs and line breaks, not all of Unicode white space; all errors are one error value.
- `Cookie.CrackIssued`: the MAC is an uninterpreted function with 32-byte results, and the comparison is plain equality, because timing is not modelled.
- `FeedbagList.List.UpsertItem`: the random start of genID is a parameter; SetMode, SetIcon, PermitUser, DenyUser, DeletePermit, DeleteDeny and AddLinkedScreenName are calls of it or of DeleteItem with fixed items and have no method of their own.
- `FeedbagReplay.ReplayAfterRun`: the two store operations are applied whole; a failure between them is not modelled.
- `RateSession.RateSession.ObserveRateChanges`: the lists of changes it returns and the states it remembers for them are not modelled; they do not feed back into the limits.
- `RateSession.RateSession.ScaleWarningAndRateLimit`: the float32 product is an exact rational truncated toward zero, so a rounding error of the last bit is not modelled; nor is the warning channel.
- `RateRuns.Throughput`: gaps are those short enough not to wrap, the condition under which `RateLimit.NewLevelExactly` gives the intended average, whatever their sign; SetRateClasses after the first call and SetWarning are left out.
- `ConvoTracker.Tracker.TrackWarn`: the caches read the same clock as the caller, and times count from Go's zero time, at least an hour past it.
- `UserLocks.Refines`: safety and absence of stuck waiters are proved, fairness is not.
- `SessionManager.NoLostWakeUp`: RemoveSession is taken to be called on closed sessions only, as the callers do from the close callback; that it is called at all is theirs to see to.
- `SessionLifecycle.CallbackExactlyOnce`: RemoveInstance, which bypasses closing, and the replacement of the callback are left out; the panic when all 255 numbers are taken is a step that is not enabled.
- `SessionComposition.LifecycleRefines`: relates the steps of one session to the manager's counters; the instance tables of all sessions are not put into one state with the manager.
- `Relationship.MirrorSymmetric`: the result is a relation between join keys and rows, without the order of rows; flags that the schema allows to be NULL but no statement leaves NULL are booleans.
- `Privacy.RowsFollowPolicy`: users who switch to feedbag keep their client-side flags, which the query still joins in; for them the policy is not tracked.
- `Authorization.StoredMeansAuthorized`: users and their AuthRequired flags are fixed, and requests come from registered users; without the foreign-key no-op in that assumption a grant can clear a pending row it did not record, see `Authorization.GrantNeedsUsersExactly`.
- `AuthorizationService.FeedbagService.UpsertItem`: the messages it sends to the contacts on the way are not modelled.
- Messages sent on the side (arrival notices, authorization requests, status relays) and notifications already sent: they change none of the modelled tables.

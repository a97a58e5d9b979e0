# MPlayer / MEncoder kernels: models and proofs

Stateful kernels of MPlayer and MEncoder, each modelled twice: as a specification on values
(functions over sequences, maps and reals) and as imperative code in the program's own form
(classes, arrays, linked cells, loops). Every method is proved equal to its specification, and
the specifications are proved to have the properties the programs rely on.

| file | what it models |
|---|---|
| `ConfigSpec`, `ConfigRestore`, `ConfigFlags`, `ConfigEffects`, `Config` | the option context stack of `m_config.c`: save slots, aliases, push and pop, profiles; `Config` runs it on an explicit memory with addresses, so freeing and dangling pointers are part of the model |
| `Common` | what the models share: an option type, result codes, positions in strings |
| `FrameRate` | MEncoder's decision how often each frame is written |
| `Template` | the one-pass property string expander and a recursive interpreter of conditionals |
| `KeyFifo`, `KeyDelivery`, `DoubleClick` | the ring buffer of key events, its admission rules, what its reader gets, and the double clicks recognised in front of it |
| `SideData` | side data carried behind a packet's payload |
| `Edl` | the EDL file reader, its linked list and the cursor that follows it |
| `StringList`, `StringListEdit`, `SubOptions`, `ObjectList` | option lists: escapes, two passes over a string changed in place, sub-options, adding and deleting entries |
| `Osd` | the on-screen message stack, a linked list |
| `CodecStrings`, `CodecSearch` | the pool of codec strings; the codec search that callers use as an iterator |
| `Subtitles` | numbering of subtitles and stepping through positions and sources |

## Findings

Where a property one would expect is false of the code, the code is kept and lemmas say exactly
when the property holds and show a concrete case in which it fails.

* One push is not enough to protect an aliased option: from level 1 a set through the alias
  survives the pop. This is the reason behind the comment at `mencoder.c:644-645`; the double
  push is enough because aliases share only slots of level 1 (`RestoredByEveryBody`,
  `SinglePushIsNotEnough`, `SinglePushWitness`, `EveryFileRestores`).
* A pop leaves an alias with a dangling pointer exactly if it frees the slot the alias shares,
  which takes an alias registered after a push (`PopValidIff`, `LateAliasDangles`). Both
  programs register everything at level 1, where it cannot happen (`RootedSurvive`).
* A key-up can be swallowed without a release in one corner: the down event itself carried the
  release-all bit and one place was left (`UpReleases`, `UpReleasesWitness`). It takes a ring of
  two or three places (`DownLeavesRoom`), and no caller in the program submits such a down. After
  a plain key press a release is always accepted (`NoStuckKey`).
* The ring works as a queue in every run exactly if its size divides 2^32. With any other size,
  the default 7 included, there is a run in which an event still queued is overwritten when the
  write counter wraps (`RingIsQueueIff`, `WrappedPlacesDiffer`, `LosesAnEvent`).
* So an accepted release need not reach the reader. It always does, over all runs, exactly if
  the size divides 2^32 or 2^32 + 1: in the latter case an event that overwrites another carries
  the release-all bit. With any other size there is a run in which the reader gets a key-down
  and never a release, though the key-up was accepted (`ReaderNeverStuckIff`, `StuckKey`); runs
  of at most 2^32 accepted events are safe with every size (`ReaderNeverStuck`). The same holds
  with double clicks (`ReaderNeverStuckAnyClicksIff`).
* Merged side data comes back exactly when there are at most 32 elements with types below 128
  (`SplitUndoesMerge`, `TypeTooLargeWitness`). The library has 32 types, numbered below 128, so
  neither failing case is known to arise in the program.
* One call of the EDL update passes one record at most and none backwards, so it follows the list
  exactly when at most one record has started since the last call and none has un-started (`StepSyncs`, `StepSyncsWitness`).
* A skip line shorter than the time between two updates makes the update that comes upon it ask
  to go back, since its stop has passed (`SessionSkips`, `ShortSkipWitness`).
* A hexadecimal escape in a template prints its last digit again: the scan goes on one place
  early (`HexEscapesRead`, `HexEscapeWitness`).
* A push resets the mark that makes the next push save an OLD option, and a pop does not bring it
  back: so of two brackets in a row only the first restores an OLD option, unless it is set in
  between (`OldRestoredIff`, `OldOptionWitness`).
* The program's own printer of string lists does not escape; what it prints reads back exactly
  when the list is neither empty nor [""], no element has a comma, and none but the last ends in
  a backslash (`RawRoundTrip`, `RawRoundTripWitness`).
* The first pass over a string list counts one element less than the second one makes exactly
  when the string ends in a bare comma, and the range check uses that count: such a list may be
  one longer than the maximum, or be refused although it meets the minimum (`CountIsLength`,
  `RangeCheckSlips`, `RangeCheckWitness`).
* Deleting list entries by index frees the marker string, which was never allocated, exactly if
  a place is named before any bad text that was named before or is marked already
  (`FreesMarkerIff`, `FreesMarkerWitness`). Marks stay behind when a deletion is refused for bad
  text, so naming a place twice in several deletions is enough (`FreesMarkerInSession`,
  `FreesMarkerInSessionWitness`); the next deletion that succeeds takes the marked entries out
  too (`Delete`), and freeing such a list frees the marker (`FreeList`).
* An OSD message that is set again keeps its "started" flag: the first update already takes time
  from it, and can free it before it is shown (`SetThenUpdate`, `SetThenUpdateWitness`).
* A step up and a step down through the subtitles lead back exactly if the position is in range
  and the first call does not meet "none" together with a selection of the demuxer's own
  (`UpThenDown`, `UpThenDownWitness`); in a run of steps only the first call can meet one
  (`StepsAddUp`).
* Changing the subtitle source goes wrong in exactly one case: towards the first source that has
  subtitles while the demuxer has one selected, so for instance from a demuxer subtitle to a
  file (`SelectsTarget`, `LeavingTheDemuxer`, `SelectsTargetWitness`).

## Model

| member | source | states |
|---|---|---|
| `ConfigRestore.PushPopRestores` | m_config.c:230-302 | after push, any balanced body of sets, profiles, direct writes and nested pushes and pops, and pop, a saved option's variable has the value of the push, if no alias shares the slot it was saved to |
| `ConfigRestore.PushPopPassesOver` | m_config.c:243-250 | GLOBAL, NOSAVE and unset OLD options come out of the bracket with the value they had at the end of the body and with as many slots as before |
| `ConfigRestore.RestoredByEveryBody` | m_config.c:230-302 | an option is restored by every balanced body if and only if the push saves it and its top slot is shared with no alias (given such an alias can be set at all) |
| `ConfigRestore.AliasDefeatsPop` | m_config.c:335-344 | one set through an alias of the top slot, and the pop "restores" the value just set |
| `ConfigRestore.SetWritesAlias` | m_config.c:471-480 | a set through an alias writes the slot of the owner that it shares |
| `ConfigRestore.DoublePushRestores` | mencoder.c:644-648 | with a push outstanding, every saved option that is not OLD is restored by every body, also one that sets through aliases |
| `ConfigRestore.EveryFileRestores` | mencoder.c:646-649 | from level 1, after one push left open and any balanced past, the bracket around each file restores every such option |
| `ConfigRestore.SinglePushIsNotEnough` | mencoder.c:644-648 | with one push from level 1, some body defeats the pop of every aliased option |
| `ConfigRestore.StepKeepsValid` | m_config.c:230-302 | every operation keeps slot levels strictly decreasing to 0, no saved option's top above the current level, aliases pointing at live slots, one owner for each variable |
| `ConfigRestore.StepKeepsDefaults` | m_config.c:346-357 | no operation frees or changes the slot of the defaults, nor leaves the profile depth changed |
| `ConfigRestore.RootedSurvive` | m_config.c:285-291 | options registered at level 1 keep their alias slots: no pop frees one |
| `ConfigRestore.PopValidIff` | m_config.c:268-302 | a pop leaves a valid configuration, with no dangling alias, if and only if it frees no slot an alias points at |
| `ConfigRestore.PopVarsAt` | m_config.c:276-299 | the pop loop, in list order, gives each variable what its owner's entry alone determines |
| `ConfigRestore.PopAfterPush` | m_config.c:285-297 | a pop takes each chain back to the height it had at the push and reads the slot the push saved to |
| `ConfigRestore.RunKept` | m_config.c:230-302 | nothing that happens inside a bracket, at any nesting depth, frees or writes an unshared slot saved before it |
| `ConfigRestore.RegisterValid` | m_config.c:305-366 | registering an option keeps the invariants |
| `ConfigFlags.PushClears` | m_config.c:243-263 | right after a push no saved option that owns its variable is marked as set, and every one but an OLD one that was not set has a slot more |
| `ConfigFlags.SetMarks` | m_config.c:476-480 | setting an option marks it, and those its profiles set, and changes no other mark |
| `ConfigFlags.FlagAfterRun` | m_config.c:230-302 | after any balanced run an option is marked exactly if a set of it was carried out since the last push, or it was before and there was no push |
| `ConfigFlags.OldRestoredIff` | m_config.c:247-248 | after any run, a bracket restores an OLD option whatever its body if and only if the option has been set since the last push |
| `ConfigFlags.OldPassedOver` | m_config.c:247-248 | otherwise it keeps the value of the end of the body and its number of slots |
| `ConfigFlags.OldOptionWitness` | m_config.c:262 | an OLD option that was set is restored by a first bracket and not by a second |
| `ConfigEffects.RegisterShares` | m_config.c:335-366 | an option becomes an alias of its variable's one owner if and only if the variable has an option already; otherwise it owns slots of level 0 and the current level with the variable's value; other options stay as they are |
| `ConfigEffects.StartIsGood` | m_config.c:369-381 | registering any options from an empty configuration at level 1 establishes everything the restoring theorems assume |
| `ConfigEffects.SessionRestores` | mencoder.c:644-649 | from the program's start -- registration, reading options, one open push, files played -- every further file's bracket restores each saved option that is not OLD |
| `ConfigEffects.SinglePushWitness` | mencoder.c:644-648 | two options for one variable at level 1: push, a set through the alias, pop, and the value set remains |
| `ConfigEffects.LateAliasDangles` | m_config.c:285-291 | an alias registered after a push dangles after the pop |
| `ConfigSpec.Popped` | m_config.c:285-291 | the slots left are the longest lower part of the chain below the level |
| `ConfigSpec.Holder` | m_config.c:337-344 | finds the option registered last among those with the variable, and nothing exactly if there is none |
| `ConfigSpec.Find` | m_config.c:384-398 | finds the option registered last among those whose name matches, and nothing exactly if there is none |
| `ConfigEffects.SetOutcome` | m_config.c:470-482 | a set leaves the parsed value in the option's slot even after an error; without one, exactly its variable has that value and it is marked as set |
| `ConfigEffects.CheckChangesNothing` | m_config.c:411-437 | checking an option, or naming an unknown or forbidden one, changes nothing |
| `ConfigEffects.ModeRules` | m_config.c:422-437 | which flag refuses or skips a set in which mode, with which code; any other accepted set is carried out |
| `ConfigEffects.ProfileDepth` | m_config.c:595-604 | a profile is ignored inside 21 others and applied inside 20 |
| `ConfigSpec.ParseOption` | m_config.c:400-483 | for every option, those of profiles and nested profiles included, and whatever the outcome: the invariants are kept, and only variables, SET flags, and data of top or shared slots change |
| `ConfigEffects.ProfilesInOrder` | m_config.c:89-94 | profiles are applied one after the other, each to what the one before left |
| `ConfigEffects.SetsInOrder` | m_config.c:602-603 | so are the options of one profile |
| `ConfigSpec.ApplyProfiles` | m_config.c:79-96 | applying a list of profiles terminates, cyclic ones included, within the depth limit, keeps the invariants and restores the depth |
| `ConfigSpec.SetProfile` | m_config.c:594-605 | the same for one profile |
| `Config.SlotAdded` | m_config.c:256-264 | a fresh cell on one chain changes that entry and no other |
| `Config.SlotFreed` | m_config.c:285-291 | freeing the top cell of a chain no alias points at leaves no dangling address and changes that entry alone |
| `Config.DataWritten` | m_config.c:253-254 | a write through a slot address changes one slot of one owner |
| `Config.AliasAdded` | m_config.c:337-344 | a new entry that holds another option's slot address is an alias of that slot |
| `Config.MConfig.Register` | m_config.c:305-366 | the code on addresses adds the entry the specification says |
| `Config.MConfig.FindHolder` | m_config.c:337-344 | the search loop is `Holder` |
| `Config.MConfig.Push` | m_config.c:230-267 | the push loop over linked slots refines the push on values |
| `Config.MConfig.PushOption` | m_config.c:242-263 | one turn of it changes one entry, as the specification says |
| `Config.MConfig.Pop` | m_config.c:268-302 | the pop loop refines the pop on values, and every dereference is of a live cell, whenever no alias's slot is freed (otherwise one dangles: `PopValidIff`) |
| `Config.MConfig.PopOption` | m_config.c:276-299 | one turn of it: slots freed, variable set if any were |
| `Config.MConfig.FreeSlots` | m_config.c:285-291 | the inner loop frees exactly the slots of the level and above, and stops before the defaults |
| `Config.MConfig.Find` | m_config.c:384-398 | the search loop is `ConfigSpec.Find` |
| `Config.MConfig.ParseOption` | m_config.c:400-483 | the code on addresses refines the specification, return code included |
| `Config.MConfig.Store` | m_config.c:470-482 | parses into the slot, sets the variable and the SET flag, or stops at a parse error with the slot already written |
| `Config.MConfig.ApplyProfiles` | m_config.c:79-96 | reads the list from the slot once and applies that list, whatever happens to the slot meanwhile |
| `ConfigEffects.NestedProfileOverwritesSlot` | m_config.c:86-94 | the slot does change meanwhile: a profile that sets the profile option leaves its own list there |
| `Config.MConfig.SetProfile` | m_config.c:594-605 | refines the specification; recursion ends by the depth limit |
| `FrameRate.RunBalanced` | mencoder.c:1436-1602 | conservation: after every frame of every run, v_timer_corr + v_pts_corr = period * frames written - input time + corrections, lost frames included |
| `FrameRate.StepOnTime` | mencoder.c:1463-1470 | without a skip limit one frame leaves the timer error within one period, two after a lost frame |
| `FrameRate.RunOnTime` | mencoder.c:1463-1484 | the drift bound over whole runs |
| `FrameRate.OutputTracksInput` | mencoder.c:1436-1568 | with no sound and no lost frame, output and input never differ by a full period |
| `FrameRate.StepPtsBound` | mencoder.c:1475-1478 | the pts accumulator stays above two periods and one correction below zero |
| `FrameRate.SilentPts` | mencoder.c:1570-1602 | without sound the pts accumulator never moves |
| `FrameRate.CorrectionCloses` | mencoder.c:1587-1601 | a correction lies between 0 and the delay, closes it by just what it adds, and is a tenth of it, or the bound in its direction if that is less |
| `FrameRate.StepCloses` | mencoder.c:1570-1602 | so does every frame with steady clocks, whether written, skipped, repeated or lost |
| `FrameRate.RunCloses` | mencoder.c:1570-1602 | over any run with steady clocks the sound's lead falls towards zero and never overshoots |
| `FrameRate.RunClosesByTenths` | mencoder.c:1592 | within ten times the bound it falls by a tenth with every frame |
| `FrameRate.CorrectionWitness` | mencoder.c:1587-1601 | half a second of lead is corrected by 50 ms |
| `FrameRate.StepCounts` | mencoder.c:1524-1568 | frames written, duplicated, skipped and lost add up |
| `FrameRate.NoSkipWritesOnce` | mencoder.c:1463-1470 | with a limit of 0 every frame that gets through is written once |
| `FrameRate.TimerIsFollowed` | mencoder.c:1463-1470 | without a limit a whole period too much output skips a frame, and k too few repeat it k times |
| `FrameRate.PtsAheadIsFollowed` | mencoder.c:1479-1484 | two periods of pts error skip a frame |
| `FrameRate.PtsBehindIsFollowed` | mencoder.c:1475-1478 | a pts error of k >= 2 periods behind repeats the frame until it is below two |
| `FrameRate.Cancels` | mencoder.c:1472-1484 | errors of a period each that disagree cancel out |
| `FrameRate.LagAfter` | mencoder.c:1467-1478 | the closed form of the duplication loops is exact: after k rounds the guard holds exactly while k is below it |
| `FrameRate.Controller.ProcessFrame` | mencoder.c:1432-1602 | the block as written computes the specified step |
| `FrameRate.Controller.DuplicateForTimer` | mencoder.c:1467-1470 | the loop terminates after the rounds of the closed form |
| `FrameRate.Controller.DuplicateForPts` | mencoder.c:1475-1478 | the same for the loop that may cancel a skip |
| `FrameRate.Controller.EncodeFrame` | mencoder.c:1490-1548 | writes unless skipped; a frame lost in the filters is charged to the timer |
| `FrameRate.Controller.WriteDuplicates` | mencoder.c:1553-1568 | writes every pending duplicate or consumes the pending skip |
| `FrameRate.Controller.CorrectAV` | mencoder.c:1570-1602 | adds one clamped correction to the total and to the pts accumulator, with the bound of the frame before |
| `Template.ScannerIsInterpreter` | m_property.c:121-188 | on every string and environment the scanner with its level counters outputs the value of the template read as a tree of conditionals; it leaves the string exactly when a lone backslash ends the tree |
| `Template.WriteThenParse` | m_property.c:121-177 | writing a tree, with `\ $ ? )` escaped, and reading it gives the tree, at any depth |
| `Template.WriteThenScan` | m_property.c:121-191 | so the scanner evaluates every written tree |
| `Template.TopLevelEnds` | m_property.c:148-150 | a `)` outside conditionals is text: only the end of the string ends the top level |
| `Template.NextReads` | m_property.c:148-177 | outside escapes each token is the text it stands for: names run to the first `}` or `:`, which must be there, `)` closes only inside a conditional, all else is one character of text |
| `Template.EscapesRead` | m_property.c:122-146 | what each escape but `\x` stands for |
| `Template.HexEscapesRead` | m_property.c:133-147 | `\x` gives the character of that number, and the scan goes on one place early |
| `Template.HexEscapeWitness` | m_property.c:133-147 | `\x41` gives "A1" |
| `Template.ConditionWitness` | m_property.c:151-174 | which of the two conditions keeps its body, and what a failing property leaves |
| `Template.Expand` | m_property.c:116-192 | the loop as written, with its growing buffer, returns that value, ended by a NUL inside the buffer |
| `Template.RunScanner` | m_property.c:117-191 | position + 1 never exceeds the buffer's size |
| `Template.Append` | m_property.c:181-186 | the buffer grows when needed and keeps what it holds |
| `KeyFifo.NoStuckKey` | mp_fifo.c:31-59 | the admission rules, in every run: once a key-up is submitted after an accepted key-down, some event accepted after the down releases the key, whatever is dropped |
| `KeyDelivery.Delivered` | mp_fifo.c:31-69 | the reader of the queue gets the accepted events in order, each once, as far as it has read |
| `KeyDelivery.ReaderSees` | mp_fifo.c:31-69 | any accepted release reaches the reader of the ring, as a release and after the turn of the event it was accepted after, if the size divides 2^32 or 2^32 + 1 or at most 2^32 events were accepted |
| `KeyDelivery.ReaderNeverStuck` | mp_fifo.c:31-69 | so after a key-down's turn the reader gets a release of the key, whatever comes before, between and after |
| `KeyDelivery.ReaderNeverStuckIff` | mp_fifo.c:31-69 | that holds over all runs if and only if the size divides 2^32 or 2^32 + 1 |
| `KeyDelivery.StuckKey` | mp_fifo.c:53-54 | for any other size a run whose reader gets the key-down and after it only events of another key, though the key-up was accepted |
| `KeyDelivery.SomeSizes` | mp_fifo.c:25 | the default size 7 is such a size; 8 and 641 are safe |
| `KeyDelivery.CollisionAt` | mp_fifo.c:53 | events less than a ring apart share a place only at the distance 2^32 modulo the size |
| `KeyFifo.UpReleases` | mp_fifo.c:35-52 | from any state, a key-up leaves a releasing event after a given down if and only if it is not the newest event with its own release-all bit and one place left |
| `KeyFifo.UpReleasesWitness` | mp_fifo.c:35-52 | that corner is reached in a ring of two places |
| `KeyFifo.DownStoredAsIs` | mp_fifo.c:36-52 | an accepted down is stored unchanged and never takes the last place |
| `KeyFifo.AdmitsExactly` | mp_fifo.c:35-52 | a key-down is accepted if and only if fewer than size - size / 2 events wait; others are accepted unchanged while two places are free; the last place takes a release-all event unless the newest is one |
| `KeyFifo.LastPlaceKeepsOwnKey` | mp_fifo.c:41-52 | in the last place a key-up keeps its key only right after its own key-down |
| `KeyDelivery.DownReachesReader` | mp_fifo.c:31-69 | such a key-down gets to the ring's reader in its turn, as it is |
| `KeyDelivery.RingAdmits` | mp_fifo.c:31-59 | the ring accepts what the queue accepts, at every size and in every run |
| `KeyFifo.StepKeepsInv` | mp_fifo.c:31-69 | a full ring ends in a release-all event; previous_down_key tells about the newest event |
| `KeyFifo.RunKeepsInv` | mp_fifo.c:31-69 | the same over every run, and accepted events are never lost from the log |
| `KeyFifo.PlacesDiffer` | mp_fifo.c:53 | events in the ring together sit in different places |
| `KeyFifo.Distance` | mp_fifo.c:32 | the difference of the wrapped counters is the number of free places |
| `KeyFifo.WrappedPlace` | mp_fifo.c:53 | the wrapped counter selects the right place while usable |
| `KeyFifo.RingIsQueue` | mp_fifo.c:31-69 | the reader gets from the ring what a queue would give, in every run of at most 2^32 accepted events, and in every run if the size divides 2^32 |
| `KeyFifo.RingIsQueueIff` | mp_fifo.c:25-69 | it does so in every run if and only if the size divides 2^32 |
| `KeyFifo.LosesAnEvent` | mp_fifo.c:53-54 | for any other size a run in which a queued event is overwritten |
| `KeyFifo.DefaultSizeLosesAnEvent` | mp_fifo.c:25 | the default size 7 is such a size |
| `KeyFifo.WrappedPlacesDiffer` | mp_fifo.c:53 | events less than a ring apart always have different places if and only if the size divides 2^32 |
| `KeyFifo.KeyRing.PutKey` | mp_fifo.c:31-59 | the code on the array and the 32-bit counters is the ring on values, in every state, wrapped or not |
| `KeyFifo.KeyRing.GetKey` | mp_fifo.c:61-69 | returns what lies at the read counter's place and advances it, or reports nothing |
| `DoubleClick.NoStuckKeyAnyClicks` | mp_fifo.c:79-106 | the admission rules again, through `mplayer_put_key`: with the double clicks it adds, some event accepted after the down still releases the key |
| `DoubleClick.ReaderNeverStuckAnyClicks` | mp_fifo.c:61-106 | and the reader gets a release after the key-down's turn, if the size is safe or at most 2^32 events are accepted |
| `DoubleClick.ReaderNeverStuckAnyClicksIff` | mp_fifo.c:61-106 | over all runs if and only if the size is safe |
| `DoubleClick.ReleaseDoubles` | mp_fifo.c:89-106 | a release is a double click exactly if its press was one and it comes in time after the first press |
| `DoubleClick.PressDoubles` | mp_fifo.c:89-99 | a press is a double click exactly if the press before it was of the same key and less than the limit ago |
| `DoubleClick.SubmitsExactly` | mp_fifo.c:74-106 | the event itself, and the double-click event of the same button; foreign double clicks are ignored |
| `DoubleClick.OpsCat` | mp_fifo.c:79-106 | what a run of events submits depends on the past only through the last two presses |
| `DoubleClick.KeySource.PutKey` | mp_fifo.c:74-106 | the code submits exactly the specified events, in order, to the ring |
| `SideData.SplitUndoesMerge` | av_helpers.c:176-256 | split after merge gives payload and elements back, whatever bytes they hold, if and only if there are at most 32 elements with types below 128 |
| `SideData.TypeTooLargeWitness` | av_helpers.c:199 | an element of type 128 does not come back |
| `SideData.LayoutWitness` | av_helpers.c:194-202 | the layout of two elements, byte by byte |
| `SideData.ByteOrderWitness` | av_helpers.c:197-199 | lengths are big-endian, and the flag is bit 7 |
| `SideData.SplitLeavesAlone` | av_helpers.c:213-222 | bytes without the marker, and lengths beyond the packet, are left alone |
| `SideData.MergeUndoesSplit` | av_helpers.c:176-256 | on any bytes that split, sizes + 5 each + 8 + payload add up, and merging gives the same bytes, or is refused exactly when there is no room for the padding |
| `SideData.ElementsOfTrailer` | av_helpers.c:218-250 | the backward reader finds the elements the writer laid out, whatever lies before them |
| `SideData.TrailerOfElements` | av_helpers.c:218-250 | what the backward reader accepts is exactly the layout of the elements it returns |
| `SideData.ReadWritten` | av_helpers.c:197 | reading a length as written gives it back |
| `SideData.WriteRead` | av_helpers.c:220 | writing a length as read gives the same bytes |
| `SideData.Packet.MergeSideData` | av_helpers.c:176-210 | the moving pointer fills payload, elements last to first, marker and zero padding |
| `SideData.Packet.SplitSideData` | av_helpers.c:212-256 | the two passes return the specified parts and shrink the size; nothing changes when it refuses |
| `SideData.Packet.CountElements` | av_helpers.c:218-231 | the checking pass counts the elements, and every read is inside the packet |
| `SideData.Packet.TakeElements` | av_helpers.c:237-252 | the copying pass visits the same places without checks |
| `Edl.ListShape` | edl.c:92-146 | for any lines start1 <= stop1 < start2 <= ..., and mute records come in adjacent pairs |
| `Edl.KeepsExactly` | edl.c:96-118 | a file keeps all its lines if and only if each is three numbers, stops after it starts, and starts after the one before has stopped |
| `Edl.SkipRecords` | edl.c:120-143 | the list's skip records are those of the accepted skip lines |
| `Edl.InMuteOfFile` | edl.c:104-137 | the list mutes a time exactly if an accepted mute line's [start, stop) holds it |
| `Edl.ToggledIsInMute` | mplayer.c:2703-2728 | toggling at every started record tells whether the time is in a mute |
| `Edl.ResetSyncs` | mplayer.c:2696-2753 | a reset puts cursor and flag where the time asks for, unless it requests another seek |
| `Edl.BackwardRequests` | mplayer.c:2706-2720 | the early return requests a seek to before the record it landed in |
| `Edl.SeekThenTick` | mplayer.c:2706-2720 | that request follows a seek into a record if and only if the seek went backwards |
| `Edl.JumpsToStop` | mplayer.c:2733-2744 | an update asks to go forward if and only if it comes upon a skip record, and then to its stop |
| `Edl.SessionSkips` | mplayer.c:2696-2744 | from file to picture: in any smooth session, if and only if it comes upon an accepted skip line, and then to that line's stop |
| `Edl.SkipWitness` | mplayer.c:2735-2739 | the line "10 20 0" at time 10 asks to go 10 seconds on |
| `Edl.ShortSkipWitness` | mplayer.c:2733-2744 | a skip that is over when the update comes upon it asks to go back |
| `Edl.StepSyncs` | mplayer.c:2733-2753 | one incremental update agrees with starting over if and only if at most one record has started since and none has un-started |
| `Edl.StepSyncsWitness` | mplayer.c:2733-2753 | a mute shorter than the time between two updates leaves the sound off after it has ended |
| `Edl.StepCatchesUp` | mplayer.c:2733-2753 | otherwise it passes one record and the flag still fits the records passed |
| `Edl.SessionInSync` | mplayer.c:2696-2753 | incremental following agrees with starting over, over whole sessions of updates and seeks |
| `Edl.SessionMutes` | mplayer.c:2696-2753 | from file to ears: the sound is muted exactly when an accepted mute line holds the time of the last update |
| `Edl.MixerByFile` | mplayer.c:2729-2748 | the mixer is muted exactly if the user asks for it or an accepted mute line holds the time of the last update |
| `Edl.ListBuilder.Append` | edl.c:36-50 | a record is linked behind the last one, prev and next agreeing |
| `Edl.ListBuilder.ReadLine` | edl.c:96-143 | one line is dropped or appended as specified |
| `Edl.ParseFile` | edl.c:92-146 | the linked list holds exactly the specified records |
| `Edl.EdlPlayer.UpdateEdl` | mplayer.c:2693-2754 | the code on the linked list refines the update on values |
| `Edl.EdlPlayer.Walk` | mplayer.c:2703-2728 | the reset walk stops at the specified record with the flag toggled on the way |
| `Edl.EdlPlayer.Seek` | mplayer.c:2798-2801 | a seek asks for a reset and remembers its direction |
| `StringList.RoundTrip` | m_option.c:552-634 | escaping commas, joining and parsing gives the list back if and only if it is neither empty nor [""] and no element but the last ends in a backslash |
| `StringList.RawRoundTrip` | m_option.c:676-694 | the program's own printer reads back if and only if, besides, no element has a comma |
| `StringList.RawRoundTripWitness` | m_option.c:676-694 | the list of "a,b" does not come back |
| `StringList.CountIsLength` | m_option.c:597-633 | the first pass counts the entries made, less one exactly when the string ends in a bare comma or is empty: n + 2 cells suffice |
| `StringList.RangeCheckSlips` | m_option.c:606-610 | a list too long for the maximum is accepted, or one that meets the minimum refused, if and only if the string ends in a bare comma and the list is one over the bound, or just at it |
| `StringList.RangeCheckWitness` | m_option.c:606-610 | "a," passes for at most one element and makes two |
| `StringList.SplitWeight` | m_option.c:618-632 | no character is lost: elements, separators and removed backslashes add up to the string |
| `StringList.NextSep` | m_option.c:552-563 | without modifying, finds the separator the reference reader finds |
| `StringList.NextSepInPlace` | m_option.c:552-563 | modifying, finds it while squeezing out the backslashes in front of escaped commas |
| `StringList.CountElements` | m_option.c:597-605 | the first pass computes `Count` |
| `StringList.FillTable` | m_option.c:614-633 | the second pass, on the copy it changes, fills the table with the elements and a null within n + 2 cells |
| `StringList.ParseStrList` | m_option.c:592-650 | both passes together give the specified list or error |
| `StringListEdit.Add` | m_option.c:472-497 | the new entries stand before or behind the old ones, ended by a null |
| `StringListEdit.Delete` | m_option.c:499-550 | exactly the entries not named remain, in order, whatever indices repeat; an empty result is no array |
| `StringListEdit.DeleteUndoesAdd` | m_option.c:472-550 | deleting the places the new entries were put at gives the old list back |
| `StringListEdit.Collect` | m_option.c:537-543 | the count kept while deleting is exactly the room the entries need |
| `SubOptions.RoundTrip` | m_option.c:979-1042 | any list of accepted names and non-empty values, each written bare, quoted or counted where that is legal, parses back to itself, with or without a last `:` |
| `SubOptions.OnlyLegalForms` | m_option.c:988-1014 | a bare or quoted value reads back if and only if the form is legal for it |
| `SubOptions.FirstErrorDecides` | m_option.c:1024-1034 | the first sub-option that is unknown, or refused by its type, decides the code |
| `SubOptions.MalformedFails` | m_option.c:988-1006 | a malformed value makes the parameter invalid |
| `SubOptions.MalformedWitness` | m_option.c:988-1006 | open quotes, and lengths that are negative or too large |
| `SubOptions.ReadWritten` | m_option.c:986-1015 | each legal form of a value is read as that value, wherever it stands |
| `SubOptions.StrtolDecimal` | m_option.c:1001 | the length read is the length written |
| `SubOptions.ParseSubconf` | m_option.c:970-1046 | the loop as written gives the specified list or the code of the first error |
| `ObjectList.UnmarkedIsSurvivors` | m_option.c:1740-1771 | squeezing out marked entries leaves those whose places were not named |
| `ObjectList.FreesMarkerIff` | m_option.c:1740-1759 | in a list with any marks, marking frees the marker string if and only if, before any bad text, a place is named that is marked or was named before |
| `ObjectList.FreesMarkerInSession` | m_option.c:1744-1759 | after any deletions refused for bad text, a deletion frees the marker if and only if a place is named twice in all of them together |
| `ObjectList.FreesMarkerInSessionWitness` | m_option.c:1744-1759 | "0,x" and then "0", neither of which names a place twice |
| `ObjectList.BadTextLeaves` | m_option.c:1744-1748 | bad text leaves marked what was, and the places named before it |
| `ObjectList.MarksDoomed` | m_option.c:1740-1759 | when marking ends well exactly the places named are marked, negative indices counted from the end |
| `ObjectList.Normal` | m_option.c:1750-1755 | an index names the place it counts to, from the front or from the end |
| `ObjectList.Mark` | m_option.c:1740-1759 | the loop marks in place as specified, up to bad text, and reports which way it ended, for every list of indices and every list with marks |
| `ObjectList.Compact` | m_option.c:1766-1771 | the in-place loop leaves the unmarked entries in order and nulls behind them, so its step over the new end is harmless |
| `ObjectList.Delete` | m_option.c:1731-1776 | which of the three ways a deletion ends; when it succeeds, the list is the old one without the places named or marked, with one terminator; when it is refused, what it leaves marked |
| `ObjectList.FreeList` | m_option.c:1778-1793 | freeing a list frees the marker string if and only if a mark is left |
| `Osd.RunKeepsUnique` | mplayer.c:1383-1513 | ids stay unique in every run |
| `Osd.WalkSubIds` | mplayer.c:1483-1510 | a walk leaves a subsequence of the stack |
| `Osd.WalkFinds` | mplayer.c:1483-1512 | it shows the first visible message that has not expired, frees every visible one above it, ages or frees hidden ones up to the first alive, and leaves everything below alone |
| `Osd.HiddenTakeTurns` | mplayer.c:1485-1511 | the time of hidden messages runs for the topmost only, and for the next once that one's is over |
| `Osd.ShownByTheClock` | mplayer.c:1477-1511 | a message on top is displayed by the first update and from then on exactly while the clock has moved by less than its time |
| `Osd.StaysByTheClock` | mplayer.c:1477-1511 | what is displayed, with how much time left, at every reading |
| `Osd.GoingBackTakesNothing` | mplayer.c:1477-1481 | a reading that goes back takes no time from a message |
| `Osd.ClockWitness` | mplayer.c:1477-1511 | 500 ms from reading 1000 on are over at 1500, not at 1499 |
| `Osd.RemoveLeavesOthers` | mplayer.c:1419-1435 | removing an id leaves exactly the other messages, in their order |
| `Osd.SetLeavesOthers` | mplayer.c:1383-1412 | a set puts the message on top of exactly the others, with 127 characters of its text |
| `Osd.StaysForItsTime` | mplayer.c:1483-1507 | over any updates a visible started message on top stays exactly while their total is below its time, and then is gone for good |
| `Osd.SetThenUpdate` | mplayer.c:1383-1512 | a message just set is shown with its full time if and only if none of its id had been shown or the update takes no time; it is freed unshown if and only if one had been and its time is up |
| `Osd.SetThenUpdateWitness` | mplayer.c:1383-1512 | a message set again for 50 ms is freed unshown by an update after 60 ms |
| `Osd.FirstShown` | mplayer.c:1484-1498 | the message found is visible and alive, and none above it is |
| `Osd.OsdStack.SetMsg` | mplayer.c:1383-1412 | pulls the node of that id to the top or allocates one; the other messages keep their order |
| `Osd.OsdStack.RemoveMsg` | mplayer.c:1419-1435 | unlinks and frees the node of that id, if any |
| `Osd.OsdStack.ClearMsgs` | mplayer.c:1440-1449 | frees every node |
| `Osd.OsdStack.GetMsg` | mplayer.c:1457-1513 | deleting while walking refines the walk on values; the node returned is live |
| `CodecStrings.EveryIndexDecodes` | codec-cfg.c:574-610 | every index given out decodes to its string after all later additions |
| `CodecStrings.SameIndexSameString` | codec-cfg.c:590-598 | with de-duplication two additions get one index if and only if they add one string |
| `CodecStrings.ReusesExactly` | codec-cfg.c:590-598 | the pool stays as it is if and only if the string is in it |
| `CodecStrings.PoolWitness` | codec-cfg.c:574-579 | in the pool of two strings only the places where they start decode |
| `CodecStrings.FindsFirst` | codec-cfg.c:592-597 | the scan visits every index that names a string and stops at the first that names this one |
| `CodecStrings.StringPool.IdxToStr` | codec-cfg.c:574-579 | returns the string of a valid index and nothing for any other |
| `CodecStrings.StringPool.AddStr` | codec-cfg.c:581-610 | appends or reuses as specified |
| `CodecSearch.FoundAreServing` | codec-cfg.c:893-934 | calling again and again from the codec returned last yields exactly the codecs that serve the code, each once, in table order |
| `CodecSearch.FindCodec` | codec-cfg.c:893-934 | the two loops return the next such codec and the mapping of its first matching entry |
| `Subtitles.PositionsAreSubtitles` | command.c:116-138 | positions 0 to size - 1 and (source, index) pairs correspond one to one; other positions have none |
| `Subtitles.InverseSteps` | command.c:1541-1550 | a step up and a step down undo each other |
| `Subtitles.StepsAreACycle` | command.c:1541-1545 | steps up come back first after size + 1 of them |
| `Subtitles.SubSettles` | command.c:1535-1613 | the position ends in range whatever it was, and with "none" nothing is left selected |
| `Subtitles.SetSelects` | command.c:1532-1540 | a set in range selects that position, one below none, one above the last subtitle |
| `Subtitles.StreamFor` | command.c:1594-1613 | the first stream with the subtitle's sid, else the stream of that number, else none |
| `Subtitles.StreamsAreCounted` | command.c:164-169 | the streams counted are those there are |
| `Subtitles.NextCallAgrees` | command.c:159-187 | so the next call finds the position as this one left it, even if streams have come up |
| `Subtitles.StepsAddUp` | command.c:1478-1550 | over any run of steps through the property, from any position the program leaves, the position moves round the ring by steps up less steps down, from where the first call finds it |
| `Subtitles.UpThenDown` | command.c:1478-1613 | two successive calls, up and down, lead back if and only if the position is in range and the first does not meet "none" with a selection of the demuxer's own |
| `Subtitles.UpThenDownWitness` | command.c:176-187 | two calls that lead back, and two pairs that do not |
| `Subtitles.SourceSteps` | command.c:1690-1706 | source stepping terminates for any counts, walks the ring of "none" and non-empty sources, returns after whole rounds only, and the opposite steps undo it |
| `Subtitles.SelectsTarget` | command.c:1690-1719 | the first subtitle of the new source is selected, except in exactly one case: it is at position 0 and the demuxer has a subtitle selected |
| `Subtitles.LeavingTheDemuxer` | command.c:1690-1719 | in a state a property call left, that case is leaving a demuxer subtitle, whose stream counts, for the first source |
| `Subtitles.SelectsTargetWitness` | command.c:1690-1719 | one file subtitle and one of the demuxer: the step to the file ends at "none" |
| `Subtitles.MpContext.SelectTrack` | command.c:1552-1613 | the selection is cleared, and set for a demuxer subtitle to the first stream with its sid |
| `Subtitles.MpContext.SubSourceAndIndexByPos` | command.c:126-138 | the loop is the specified search |
| `Subtitles.MpContext.UpdateGlobalSubSize` | command.c:159-187 | counts, size and auto-detected position as specified |
| `Subtitles.MpContext.PropertySub` | command.c:1478-1613 | the actions move the position and set the demuxer's selection as specified |
| `Subtitles.MpContext.PropertySubSource` | command.c:1647-1719 | the stepping loop and the detour over the previous position refine the specification |

## Left out

- Options with children and the registration prefix (`m_config.c:305-333`, `m_config.c:440-469`): only options with a slot of their own are registered, by full name.
- Parse callbacks are one abstract function from option, argument and destination to a code and a value; callback option types, include files and ownership of C strings are not modelled.
- `show_profile`, printing and help output: they change nothing.
- ConfigRestore.PushPopRestores: needs every option registered at level 1, which is how both programs register (`StartIsGood`); a later alias can dangle (`LateAliasDangles`).
- Config.MConfig.Pop: a pop that frees an alias's slot is excluded, since the program's behaviour is undefined from the next use of the alias on; `PopValidIff` says exactly when that is.
- FrameRate.RunBalanced: reals instead of floats, so rounding is not modelled; 3-pass mode (`mencoder.c:1438-1457`) is left out, and each frame passed on is taken to be written once.
- Template.Expand: a template that ends in a lone backslash makes the C code read past its end; the method reports that with `ok == false` and stops. Freeing of printed property values is not modelled, the buffer's contents are.
- KeyFifo: the array's contents before the first write are taken to be zero; they are never read.
- SideData: failing allocations and reference-counted buffers are left out.
- Edl: the file is a sequence of lines already scanned into numbers; playback without video and freeing the list are left out. `mixer_mute` is taken to flip the mixer's state.
- Edl.SessionInSync: speaks of sessions in which no two records start between updates and no reset lands inside a record after a backward seek; what one update does outside them is said by `StepCatchesUp` and `BackwardRequests`.
- StringList.ParseStrList: the wildcard name with its suffixes only selects what is done with the list; the two array operations are in `StringListEdit`, the rest is left out.
- StringListEdit.Delete: takes the indices as parsed, None for text that is no number; freeing the strings is not modelled.
- SubOptions.RoundTrip: a counted value is shorter than INT_MAX, where the C code's int length ends.
- ObjectList.Delete: says nothing of the list once the marker string has been freed. Attribute lists and adding to a marked list are left out.
- Osd: the seek bar's timeout (`mplayer.c:1465-1475`) and message formatting are left out; texts are given, cut to 127 characters.
- CodecStrings, CodecSearch: parsing the codec table and loading it are left out.
- Subtitles: of what follows the position being set only the demuxer's selection is modelled, not what is shown; the SET and GET actions of the source property, `mp_property_sub_by_type` and `remove_subtitle_range` are left out. The counters are unbounded integers.
- Element matching in `asxparser.c`, the play tree, option tables, format tables and everything that only does I/O are left out.

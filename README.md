# Verified models of the lad repository's logic cores

This project models, in Dafny, the self-contained logic of a collection of
Linux audio programs and tools: the lv2specgen ontology documentation
generator, Raul's object paths, Ingen's MIDI buffer, clash avoider and
serializer, the Machina state machine with its update stream and client
mirror, the dirg Launchpad driver and pad state, the Lolep/Imum parse
plugin, the Lolep rdf-read plugin, the lvz gendata tool, Evoral's notes and
events, redlandmm's World, Model and Delta, Patchage's port ids and the
autowaf build helpers. Each component is one module in one file:

- `specgen_text.dfy`, `specgen_graph.dfy`, `specgen_info.dfy`,
  `specgen_html.dfy` (lv2specgen.py). These cover:
  - short names, anchors, `niceName` and namespace normalisation;
  - the de-duplicating `add` and the class-to-property indices;
  - `parseCollection`, `specInformation` and `getInstances`;
  - `getTermLink`, `rdfsClassInfo`, `docTerms`, `buildazlist` and `build_simple_list`.

  Loops that build lists, dicts and HTML strings are methods proved equal to specification functions. The functions' properties are proved as lemmas: each name listed once, index contents, which sections appear, and whether links reach their anchors.
- `path.dfy` (Raul's Path.h): the path grammar, `name`, `parent`, `base` and
  `is_child_of`. It also models the repair functions `pathify`, `nameify` and
  `replace_invalid_chars`, both as written and corrected.
- `midi_buffer.dfy` (Ingen's MidiBuffer): a class over a block of
  timestamped records, with a byte cursor. It models append, increment,
  get_event, join/unjoin, copy and merge.
- `clash_avoider.dfy` (Ingen's ClashAvoider): the memoised path renamer and
  the forwarding of messages with their paths mapped.
- `machine.dfy`, `updates.dfy`, `client.dfy`, `schrodinbit.dfy` (Machina): the machine's slot table, entering and exiting nodes, reset and run; the update record encoder and decoder; the client object and model; and the read-once flag.
- `launchpad.dfy`, `pad_state.dfy` (dirg): button to MIDI encoding and
  decoding, the write cache, USB packet packing with running status, and the
  pad colour state.
- `parse.dfy` (the parse plugin of Lolep and Imum, which are the same code):
  literal classification and the output atom.
- `rdf_read.dfy` (Lolep's rdf-read): blank-node bookkeeping, abbreviation,
  atom sizes and the layout the writer produces.
- `gendata.dfy` (lvz's gendata): `symbolify` as three rewriting loops, and
  the manifest maps.
- `event.dfy`, `note.dfy` (Evoral): an Event class over a byte array, owning
  or aliasing, and a Note as two owned MIDI events.
- `prefixes.dfy`, `world.dfy`, `serializer.dfy`, `delta.dfy` (redlandmm and
  Ingen's Serializer): prefix expansion in std::map key order, blank ids,
  statement insertion, the Delta set difference and its changeset
  serialisation. The Delta code in Delta.hpp and in Model.cpp is the same;
  the rows cite Delta.hpp.
- `port_id.dfy` (Patchage's PortID) and `autowaf.dfy` (both autowaf.py
  files).

Where the code and its documentation disagree, the model follows the code and
records the gap under "## Findings". A finding's as-written behaviour is
kept in a member of its own. The corrected definition is what the rest of
the model uses.

## Model

| member | source | states |
|---|---|---|
| Wrappers.DigitChar | trunk/redlandmm/src/World.cpp:105 | the character of a decimal digit, whose code minus that of '0' is the digit |
| Wrappers.NatToString | trunk/redlandmm/src/World.cpp:105 | the decimal text a stream insertion of a counter writes: at least one digit, all digits, no leading zero |
| Wrappers.DigitsValueOfNatToString | trunk/redlandmm/src/World.cpp:105 | reading the decimal text back gives the number |
| Wrappers.NatToStringInjective | trunk/redlandmm/src/World.cpp:98-105 | different counters give different names |
| SchrodinbitFlag.Schrodinbit.constructor | trunk/machina/src/engine/Schrodinbit.hpp:26 | a new flag holds false |
| SchrodinbitFlag.Schrodinbit.Observe | trunk/machina/src/engine/Schrodinbit.hpp:28-32 | reading returns the stored value and clears the flag |
| SchrodinbitFlag.Schrodinbit.Assign | trunk/machina/src/engine/machina/Schrodinbit.hpp:34-37 | assignment stores the value and returns it |
| SchrodinbitFlag.Schrodinbit.Apply | trunk/machina/src/engine/Schrodinbit.hpp:28-37 | a run of reads and writes yields exactly the reads' values the observation function predicts, and leaves the predicted flag |
| SchrodinbitFlag.Observations | trunk/machina/src/engine/Schrodinbit.hpp:28-32 | one observed value per read |
| SchrodinbitFlag.ReadsAfterFirstSeeFalse | trunk/machina/src/engine/Schrodinbit.hpp:22-32 | without a write, the first read sees the flag and every later read sees false |
| SchrodinbitFlag.SetThenReadOnce | trunk/machina/src/engine/machina/Schrodinbit.hpp:28-37 | after assigning true, exactly one read sees true, whatever the flag held before |
| SchrodinbitFlag.FreshFlagReadsFalse | trunk/machina/src/engine/machina/Schrodinbit.hpp:26-32 | a fresh flag reads false on every read |
| PatchagePortID.TagOrder | tags/patchage-0.5.0/src/PortID.hpp:90-91 | ids of different kinds are ordered by kind: null before JACK before ALSA, in both directions |
| PatchagePortID.JackOrder | tags/patchage-0.5.0/src/PortID.hpp:96-98 | JACK ids are ordered by their port number |
| PatchagePortID.AlsaOrder | tags/patchage-0.5.0/src/PortID.hpp:101-112 | ALSA ids are ordered by client, then port, then with outputs before inputs |
| PatchagePortID.NullNotIrreflexive | tags/patchage-0.5.0/src/PortID.hpp:94-95 | a null id is less than itself, so the relation is not a strict order |
| PatchagePortID.StrictTotalOrderOffNull | tags/patchage-0.5.0/src/PortID.hpp:87-117 | away from null ids the relation is irreflexive, asymmetric, transitive and total |
| PatchagePortID.MutualLessOnlyForNull | tags/patchage-0.5.0/src/PortID.hpp:87-117 | two ids are each less than the other exactly when both are null |
| PatchagePortID.Less | tags/patchage-0.5.0/src/PortID.hpp:87-117 | operator<; TagOrder, JackOrder, AlsaOrder and StrictTotalOrderOffNull state the order |
| DirgPad.IdLessStrictWeakOrder | trunk/plugins/dirg.lv2/src/dirg_internal.hpp:43-45 | the button order is a strict weak order whose equivalence is same row and same column |
| DirgPad.IdLessIgnoresGroup | trunk/plugins/dirg.lv2/src/dirg_internal.hpp:43-45 | two buttons differing only in group are equivalent under the order |
| DirgPad.CellOfUnusedCoordinate | trunk/plugins/dirg.lv2/src/dirg_internal.hpp:76-85 | a horizontal margin button is addressed by its column alone, a vertical one by its row alone, a grid button by both |
| DirgPad.PadState.constructor | trunk/plugins/dirg.lv2/src/dirg_internal.hpp:57-58 | every button starts unlit |
| DirgPad.PadState.SetColour | trunk/plugins/dirg.lv2/src/dirg_internal.hpp:89-104 | the addressed button takes the colour and no other cell changes |
| Strings.ReplaceChar | autowaf.py:90 | str.replace of one character (also lv2specgen.py's replace of '/' in a term name): every occurrence replaced, every other character kept, length kept |
| Autowaf.ReplacePlusPlus | autowaf.py:90 | str.replace('++', 'PP') keeps the length |
| Autowaf.ReplacePlusPlusSpec | autowaf.py:90 | after replacing "++" no "++" remains, characters other than '+' are kept, and each '+' either stays or becomes 'P' |
| Autowaf.ReplacePlusPlusIdentity | autowaf.py:90 | a name without "++" is unchanged |
| Autowaf.NameifySpec | autowaf.py:89-90 | nameify keeps the length, turns '/', '-' and '.' into '_', keeps every other character except '+', and leaves no '/', '-', '.' or "++" |
| Autowaf.NameifyIdempotent | autowaf.py:89-90 | nameify applied twice is nameify applied once |
| Autowaf.Nameify | autowaf.py:89-90 | nameify; NameifySpec and NameifyIdempotent state what it returns |
| Autowaf.DisplayColour | autowaf.py:266-275 | green exactly for True or "True", yellow exactly for False or "False" |
| Autowaf.DisplayColourDefault | autowaf.py:266-271 | every other status is shown in cyan |
| Autowaf.DropFront | trunk/autowaf.py:114 | Python's s[n:]: the suffix from n, or empty when n is past the end |
| Autowaf.ChopPrefix | trunk/autowaf.py:113-119 | chop_prefix never returns an empty name |
| Autowaf.ChopPrefixOfDefault | trunk/autowaf.py:113-119 | a directory PREFIX + "/" + rest chops to rest, or to "/" when rest is empty |
| Autowaf.JoinCases | autowaf.py:151-175 | os.path.join of two parts: an absolute second part wins, otherwise the parts joined by one '/' unless the first is empty or already ends in '/' |
| Autowaf.ConfigureDirsDefaults | autowaf.py:146-188 | outside bundle mode every directory is the user's option when given, else the documented join below PREFIX or DATADIR |
| Autowaf.ConfigureDirsNested | autowaf.py:146-188 | outside bundle mode an unset BINDIR, INCLUDEDIR, LIBDIR, DATADIR or CONFIGDIR starts with PREFIX, an unset MANDIR or HTMLDIR starts with DATADIR (HTMLDIR only for a relative application name; an absolute one becomes HTMLDIR itself), and the system LV2 directory off macOS starts with LIBDIR |
| Autowaf.ConfigureDirsTrunkDefaults | trunk/autowaf.py:144-187 | with no options the directories are PREFIX + "/bin/", "/include/", "/lib/", "/share/", and the chopped names are "bin/", "lib/" and "share/" |
| Autowaf.BasenameSpec | autowaf.py:190-194 | os.path.basename is the longest suffix free of '/' |
| Autowaf.BaseNamesAreTails | autowaf.py:190-194 | the base names exist exactly when CONFIGDIR is set, and each of BINDIRNAME, LIBDIRNAME, DATADIRNAME, CONFIGDIRNAME and LV2DIRNAME is the '/'-free tail of its directory |
| Autowaf.ConfigDirOutsideBundle | autowaf.py:136-165 | CONFIGDIR is set exactly outside bundle mode |
| Autowaf.BaseNames | autowaf.py:190-194 | the five *DIRNAME base names, or a failure when CONFIGDIR is missing; BaseNamesAreTails states their properties |
| Autowaf.Basename | autowaf.py:190-194 | os.path.basename; BasenameSpec states what it returns |
| Autowaf.ChoppedNames | trunk/autowaf.py:184-187 | the *DIRNAME entries of trunk/autowaf.py, PREFIX chopped off by chop_prefix; ConfigureDirsTrunkDefaults states them for the defaults |
| Autowaf.ConfigureDirs | autowaf.py:136-188 | the directories configure chooses in autowaf.py; ConfigureDirsDefaults states them outside bundle mode |
| Autowaf.ConfigureDirsTrunk | trunk/autowaf.py:144-187 | the directories configure chooses in trunk/autowaf.py; ConfigureDirsTrunkDefaults states them for the defaults |
| Autowaf.ConfigContext.constructor | autowaf.py:22-23 | the configuration starts at step zero with nothing checked, defined or chosen |
| Autowaf.ConfigContext.SetOptions | autowaf.py:34-71 | the options are registered once: a second call changes nothing |
| Autowaf.ConfigContext.CheckHeader | autowaf.py:73-87 | the header check runs only for a header not checked before, and the header is then recorded as checked |
| Autowaf.ConfigContext.CheckTool | trunk/autowaf.py:82-90 | the tool check runs only for a tool not checked before, and the tool is then recorded as checked |
| Autowaf.ConfigContext.CheckPkgAs | autowaf.py:96-117 | the package check runs when its HAVE_ variable is unset or a newer version is asked for; a found package is defined, with its version, and a missing mandatory one is fatal |
| Autowaf.ConfigContext.CheckPkg | autowaf.py:96-117 | with HAVE_ + nameify(uselib_store) as the variable and mandatory unless the caller says otherwise: the check runs when the variable is unset or a newer version than the recorded one is asked for, and only then is the package listed; a found package is defined and its VERSION_ entry set to the version asked for; a missing one is undefined and, when mandatory, fatal; a skipped check changes nothing |
| Autowaf.ConfigContext.CheckPkgTrunk | trunk/autowaf.py:92-111 | the same check with HAVE_ + uselib_store (not nameified) as the variable and mandatory as the caller gives it: it runs when the variable is unset or a newer version is asked for; a found package is defined with its version, a missing one undefined and, when mandatory, fatal; a skipped check changes nothing |
| Autowaf.ConfigContext.Configure | autowaf.py:119-226 | configure runs once (a later call changes nothing) and hands compiler_cc and compiler_cxx to waf's check_tool; it chooses the directories and, outside bundle mode, their five base names, CONFIGDIRNAME included; in bundle mode CONFIGDIR is never set, so configure fails and g_step stays |
| Autowaf.ConfigContext.CheckStandardTools | trunk/autowaf.py:128-130 | the tools misc, compiler_cc and compiler_cxx are recorded as checked |
| Autowaf.ConfigContext.ConfigureTrunk | trunk/autowaf.py:121-197 | configure runs once, checks the three standard tools, and chops PREFIX off the directory names |
| Launchpad.ButtonMessage | trunk/plugins/dirg.lv2/src/LaunchpadImpl.cpp:337-358 | setButton writes a message exactly for grid ids with row and column in 0..7, horizontal-margin ids with column in 0..7 and vertical-margin ids with row in 0..7 |
| Launchpad.DecodeButtonMessage | trunk/plugins/dirg.lv2/src/LaunchpadImpl.cpp:83-99 | handleMidi decodes the message setButton sends for a button back to that button, pressed exactly at velocity 127 |
| Launchpad.HandleMidi | trunk/plugins/dirg.lv2/src/LaunchpadImpl.cpp:83-99 | handleMidi; DecodeButtonMessage and DecodeAll state what it reports |
| Launchpad.ButtonMessageKeysDistinct | trunk/plugins/dirg.lv2/src/LaunchpadImpl.cpp:323-358 | distinct buttons use distinct cache keys (status, note), so writeMidi's cache never conflates two buttons |
| Launchpad.Messages | trunk/plugins/dirg.lv2/src/LaunchpadImpl.cpp:326-331 | the write queue, which writeMidi fills three bytes at a time, reads as one message per three bytes |
| Launchpad.Encode | trunk/plugins/dirg.lv2/src/LaunchpadImpl.cpp:108-126 | a message takes three bytes when its status changes and two otherwise |
| Launchpad.RunningStatusCons | trunk/plugins/dirg.lv2/src/LaunchpadImpl.cpp:108-126 | the running-status encoding of a message list is the first message's bytes followed by the rest encoded after its status |
| Launchpad.RunningStatus | trunk/plugins/dirg.lv2/src/LaunchpadImpl.cpp:108-126 | the running-status encoding; RunningStatusCons and ReadRunningStatus state its properties |
| Launchpad.Head | trunk/plugins/dirg.lv2/src/LaunchpadImpl.cpp:116-126 | the bytes placed for the first queued message: three on a status change, two otherwise |
| Launchpad.FillFromBounds | trunk/plugins/dirg.lv2/src/LaunchpadImpl.cpp:106-127 | a packet never holds more than 8 bytes and consumes only whole messages of the queue |
| Launchpad.FillFromSpec | trunk/plugins/dirg.lv2/src/LaunchpadImpl.cpp:106-127 | the bytes of a packet are exactly the running-status encoding of the messages it consumed |
| Launchpad.MessagesCons | trunk/plugins/dirg.lv2/src/LaunchpadImpl.cpp:326-331 | a queue of whole messages reads as its first message followed by the rest |
| Launchpad.FillFromProgress | trunk/plugins/dirg.lv2/src/LaunchpadImpl.cpp:106-127 | a packet started on a non-empty queue consumes at least one message, so the queue drains |
| Launchpad.FillFromStartsWithStatus | trunk/plugins/dirg.lv2/src/LaunchpadImpl.cpp:106-132 | since the status is reset to 0 after each packet, every packet starts with a status byte |
| Launchpad.FillFrom | trunk/plugins/dirg.lv2/src/LaunchpadImpl.cpp:106-127 | the packet fill; FillFromBounds, FillFromSpec and FillFromProgress state its properties |
| Launchpad.FillStep | trunk/plugins/dirg.lv2/src/LaunchpadImpl.cpp:107-127 | one turn of the loop: a message that fits is placed and the rest is packed after it |
| Launchpad.DropMessage | trunk/plugins/dirg.lv2/src/LaunchpadImpl.cpp:122-126 | popping a message from a queue of whole messages leaves whole messages |
| Launchpad.PackPacket | trunk/plugins/dirg.lv2/src/LaunchpadImpl.cpp:106-127 | the packing loop yields exactly the packet bytes and leftover queue of the running-status fill |
| Launchpad.PackStep | trunk/plugins/dirg.lv2/src/LaunchpadImpl.cpp:107-127 | a loop turn that places a message keeps the packing invariant |
| Launchpad.DropPrefix | trunk/plugins/dirg.lv2/src/LaunchpadImpl.cpp:122-126 | popping three bytes moves the consumed count on by three |
| Launchpad.PackDone | trunk/plugins/dirg.lv2/src/LaunchpadImpl.cpp:107-114 | when the loop stops the placed bytes are the whole fill |
| Launchpad.DecodeAll | trunk/plugins/dirg.lv2/src/LaunchpadImpl.cpp:83-99 | decoding a message list reports handleMidi of each message, in order |
| Launchpad.ReadRunningStatus | trunk/plugins/dirg.lv2/src/LaunchpadImpl.cpp:141-160 | reading a running-status stream of pad messages reports every message: the reader's mode switches undo the writer's status elision |
| Launchpad.ReadOne | trunk/plugins/dirg.lv2/src/LaunchpadImpl.cpp:141-160 | reading one encoded pad message reports it and leaves the mode at its status |
| Launchpad.ReadShift | trunk/plugins/dirg.lv2/src/LaunchpadImpl.cpp:141-160 | reading after a prefix equals reading the remainder on its own |
| Launchpad.ReadShiftFrom | trunk/plugins/dirg.lv2/src/LaunchpadImpl.cpp:141-160 | the same shift from any starting position |
| Launchpad.LaunchpadState.constructor | trunk/plugins/dirg.lv2/src/LaunchpadImpl.cpp:163-176 | a new driver has an empty cache and queue, running status 0 and live mode |
| Launchpad.LaunchpadState.WriteMidi | trunk/plugins/dirg.lv2/src/LaunchpadImpl.cpp:323-333 | the message is queued exactly when the cache holds a different value for (b1, b2), and the cache then holds b3 there |
| Launchpad.LaunchpadState.SetButton | trunk/plugins/dirg.lv2/src/LaunchpadImpl.cpp:337-358 | an in-range button's message is written through writeMidi; an out-of-range id changes nothing |
| Launchpad.LaunchpadState.FillCache | trunk/plugins/dirg.lv2/src/LaunchpadImpl.cpp:235-250 | the keys with status 128, 144, 146 or 176 and note 0..127 map to 0; every other entry is kept |
| Launchpad.LaunchpadState.HandleWriteTransfer | trunk/plugins/dirg.lv2/src/LaunchpadImpl.cpp:102-137 | an empty queue yields eight junk bytes; otherwise the packet is the running-status fill padded with 145, the consumed bytes leave the queue and the running status is reset to 0 |
| Launchpad.LaunchpadState.HandleReadTransfer | trunk/plugins/dirg.lv2/src/LaunchpadImpl.cpp:141-160 | the reported buttons and the final mode are those of reading the received bytes, with LIVE and MATRIX switching the mode |
| IngenMidiBuffer.BytesAppend | ingen/src/libs/engine/MidiBuffer.cpp:177-205 | the bytes used by two runs of records add up |
| IngenMidiBuffer.OffsetStep | ingen/src/libs/engine/MidiBuffer.cpp:150-162 | the next record starts one header plus payload after the current one |
| IngenMidiBuffer.OffsetBound | ingen/src/libs/engine/MidiBuffer.cpp:150-175 | a record's offset plus the bytes from it on is the buffer size |
| IngenMidiBuffer.OffsetSnoc | ingen/src/libs/engine/MidiBuffer.cpp:177-205 | appending a record keeps the offsets of the earlier records |
| IngenMidiBuffer.EventAtOffset | ingen/src/libs/engine/MidiBuffer.cpp:213-233 | reading at a record's offset yields that record |
| IngenMidiBuffer.AtEnd | ingen/src/libs/engine/MidiBuffer.cpp:150-175 | at a record boundary, increment's test position + 12 >= size (and position >= size) holds exactly at the end |
| IngenMidiBuffer.AppendedFits | ingen/src/libs/engine/MidiBuffer.cpp:177-205 | a run of appends never exceeds the capacity and neither invents nor reorders records |
| IngenMidiBuffer.AppendedAll | ingen/src/libs/engine/MidiBuffer.cpp:177-205 | when everything fits, no append is refused |
| IngenMidiBuffer.TakeBelow | ingen/src/libs/engine/MidiBuffer.cpp:128-147 | the longest prefix stamped below the frame count: all below it, and the next record (if any) not below |
| IngenMidiBuffer.CopyDropsFirstEvent | ingen/src/libs/engine/MidiBuffer.cpp:139-143 | as written, copy of a one-record buffer appends nothing |
| IngenMidiBuffer.CopyCandidates | ingen/src/libs/engine/MidiBuffer.cpp:139-143 | the records copy appends as written; CopyDropsFirstEvent states what it misses |
| IngenMidiBuffer.CopyCandidatesFixed | ingen/src/libs/engine/MidiBuffer.cpp:128-147 | the intended copy: on ordered records, exactly those stamped below the frame count |
| IngenMidiBuffer.CopyFixedKeepsFirstEvent | ingen/src/libs/engine/MidiBuffer.cpp:128-147 | the intended copy keeps a lone record |
| IngenMidiBuffer.Live | ingen/src/libs/engine/MidiBuffer.cpp:261-275 | merge consumes the first record of a side and then the following ones up to the first record stamped 0.0 |
| IngenMidiBuffer.LiveFrom | ingen/src/libs/engine/MidiBuffer.cpp:261-275 | the same count from any starting record |
| IngenMidiBuffer.MergeSeqPermutation | ingen/src/libs/engine/MidiBuffer.cpp:261-278 | merging in time order neither loses nor invents records |
| IngenMidiBuffer.MergeSeqSorted | ingen/src/libs/engine/MidiBuffer.cpp:261-278 | merging two time-ordered sides gives a time-ordered result |
| IngenMidiBuffer.MergeSeq | ingen/src/libs/engine/MidiBuffer.cpp:261-278 | the order in which merge emits records; MergeSeqPermutation, MergeSeqSorted and MergeSeqTiesFavourB state its properties |
| IngenMidiBuffer.HeadBelowMerge | ingen/src/libs/engine/MidiBuffer.cpp:261-278 | a record no later than both sides is no later than any merged record |
| IngenMidiBuffer.SortedCons | ingen/src/libs/engine/MidiBuffer.cpp:261-278 | such a record placed first keeps the order |
| IngenMidiBuffer.MergeSeqTiesFavourB | ingen/src/libs/engine/MidiBuffer.cpp:262-268 | on equal stamps merge emits b's record first, since the test is a_time < b_time |
| IngenMidiBuffer.ZeroStampEndsStream | ingen/src/libs/engine/MidiBuffer.cpp:264-267 | as written, a second record of a stamped 0.0 and everything after it are lost |
| IngenMidiBuffer.MergeAll | ingen/src/libs/engine/MidiBuffer.cpp:236-278 | the intended merge keeps both sides in full and in time order |
| IngenMidiBuffer.AdvanceSide | ingen/src/libs/engine/MidiBuffer.cpp:150-175 | after a record is taken, increment's answer keeps the side going exactly when another record follows with a non-zero stamp; the side's final time is the last stamp or this_nframes |
| IngenMidiBuffer.MergeTakesFirst | ingen/src/libs/engine/MidiBuffer.cpp:262-267 | when a's record goes first, the merge is that record then the merge of the rest |
| IngenMidiBuffer.MergeTakesSecond | ingen/src/libs/engine/MidiBuffer.cpp:268-273 | when b's record goes first, likewise |
| IngenMidiBuffer.AppendedSnoc | ingen/src/libs/engine/MidiBuffer.cpp:186-187 | one more append keeps the record exactly when header plus payload fit in the space left |
| IngenMidiBuffer.TakeBelowExact | ingen/src/libs/engine/MidiBuffer.cpp:139-143 | the prefix below the frame count is the one the loop stops at |
| IngenMidiBuffer.CopyStep | ingen/src/libs/engine/MidiBuffer.cpp:139-143 | one turn of copy's loop keeps its invariant |
| IngenMidiBuffer.MergeStart | ingen/src/libs/engine/MidiBuffer.cpp:249-259 | merge's loop invariant holds after the rewinds and first reads |
| IngenMidiBuffer.MergeHead | ingen/src/libs/engine/MidiBuffer.cpp:262-273 | the record a live side offers is not stamped before the latest stamp, as append asserts |
| IngenMidiBuffer.SideAdvance | ingen/src/libs/engine/MidiBuffer.cpp:264-273 | a side after its record is taken and increment has answered |
| IngenMidiBuffer.MergeStepA | ingen/src/libs/engine/MidiBuffer.cpp:262-267 | a's branch keeps the loop invariant |
| IngenMidiBuffer.SidesStepA | ingen/src/libs/engine/MidiBuffer.cpp:262-267 | a's branch keeps the two sides' part of the invariant |
| IngenMidiBuffer.EmitFirst | ingen/src/libs/engine/MidiBuffer.cpp:262-267 | taking a's head moves it from what is left to merge to what is emitted |
| IngenMidiBuffer.EmitSecond | ingen/src/libs/engine/MidiBuffer.cpp:268-273 | taking b's head does the same |
| IngenMidiBuffer.OutputStepA | ingen/src/libs/engine/MidiBuffer.cpp:262-267 | a's branch keeps the output part of the invariant |
| IngenMidiBuffer.MergeStepB | ingen/src/libs/engine/MidiBuffer.cpp:268-273 | b's branch keeps the loop invariant |
| IngenMidiBuffer.SidesStepB | ingen/src/libs/engine/MidiBuffer.cpp:268-273 | b's branch keeps the two sides' part of the invariant |
| IngenMidiBuffer.OutputStepB | ingen/src/libs/engine/MidiBuffer.cpp:268-273 | b's branch keeps the output part of the invariant |
| IngenMidiBuffer.MergeDone | ingen/src/libs/engine/MidiBuffer.cpp:274-280 | when both sides have ended, everything merge emits has been appended, and each side's time is its final time |
| IngenMidiBuffer.CopyStart | ingen/src/libs/engine/MidiBuffer.cpp:131-138 | copy's loop invariant holds after clear and rewind |
| IngenMidiBuffer.CopyDone | ingen/src/libs/engine/MidiBuffer.cpp:139-143 | when increment's answer reaches the frame count, copy has appended exactly its candidates |
| IngenMidiBuffer.MidiData.constructor | ingen/src/libs/engine/MidiBuffer.cpp:41-52 | the block starts empty with the given capacity |
| IngenMidiBuffer.MidiBuffer.constructor | ingen/src/libs/engine/MidiBuffer.cpp:31-58 | the buffer starts on its own empty block, unjoined, with zero latest stamp and frames |
| IngenMidiBuffer.MidiBuffer.Reset | ingen/src/libs/engine/MidiBuffer.cpp:56 | reset empties the block in use and rewinds |
| IngenMidiBuffer.MidiBuffer.Rewind | ingen/src/libs/engine/MidiBuffer.cpp:113-117 | rewind moves back to the first record and changes nothing else |
| IngenMidiBuffer.MidiBuffer.PrepareRead | ingen/src/libs/engine/MidiBuffer.cpp:113-117 | prepare_read rewinds, keeps the records and takes the frame count |
| IngenMidiBuffer.MidiBuffer.PrepareWrite | ingen/src/libs/engine/MidiBuffer.cpp:121-124 | prepare_write empties the block and takes the frame count |
| IngenMidiBuffer.MidiBuffer.Increment | ingen/src/libs/engine/MidiBuffer.cpp:150-175 | increment steps past exactly one record (staying at the end) and returns the next record's stamp or this_nframes |
| IngenMidiBuffer.MidiBuffer.GetEvent | ingen/src/libs/engine/MidiBuffer.cpp:213-233 | get_event returns the record under the cursor, or this_nframes, size 0 and null data at the end |
| IngenMidiBuffer.MidiBuffer.Append | ingen/src/libs/engine/MidiBuffer.cpp:177-205 | append succeeds exactly when header plus payload fit in the free space; then the record goes last and is the latest stamp, else nothing changes |
| IngenMidiBuffer.MidiBuffer.Join | ingen/src/libs/engine/MidiBuffer.cpp:72-89 | join takes the other buffer's local block and position and returns false; the other buffer is taken to read its own block (under Left out) |
| IngenMidiBuffer.MidiBuffer.Unjoin | ingen/src/libs/engine/MidiBuffer.cpp:93-98 | unjoin goes back to the local block, which is reset |
| IngenMidiBuffer.MidiBuffer.Copy | ingen/src/libs/engine/MidiBuffer.cpp:128-147 | copy appends, up to the capacity, the as-written candidates below the smaller frame count, leaving the source's records unchanged |
| IngenMidiBuffer.MidiBuffer.CopyTurn | ingen/src/libs/engine/MidiBuffer.cpp:139-143 | one turn of copy's loop reads, appends and steps the source |
| IngenMidiBuffer.MidiBuffer.Merge | ingen/src/libs/engine/MidiBuffer.cpp:240-283 | merge appends, up to the capacity, both sides' live records in time order (b first on ties), sets the latest stamp to the larger final time and returns true |
| IngenMidiBuffer.MidiBuffer.MergeLoop | ingen/src/libs/engine/MidiBuffer.cpp:261-278 | the loop of merge appends the merged records and ends with each side at its final time |
| IngenMidiBuffer.MidiBuffer.TakeA | ingen/src/libs/engine/MidiBuffer.cpp:262-267 | the branch appending a's record carries the loop invariant forward |
| IngenMidiBuffer.MidiBuffer.TakeB | ingen/src/libs/engine/MidiBuffer.cpp:268-273 | the branch appending b's record carries the loop invariant forward |
| IngenMidiBuffer.MidiBuffer.TakeAndAdvance | ingen/src/libs/engine/MidiBuffer.cpp:262-273 | appending a side's record, stepping it, and fetching its next record unless increment answered 0.0 |
| IngenMidiBuffer.MidiBuffer.IsJoinedTo | ingen/src/libs/engine/MidiBuffer.cpp:102-109 | is_joined_to holds exactly when both buffers use the same block |
| IngenMidiBuffer.NewMidiBuffer | ingen/src/libs/engine/MidiBuffer.cpp:31-39 | construction fails exactly for a capacity above UINT32_MAX and otherwise gives an empty valid buffer |
| RaulPath.IndexOf | raul/raul/Path.h:187-188 | std::string::find of a character: the first index holding it, or npos (-1) when it is absent |
| RaulPath.LastIndexOf | raul/raul/Path.h:209 | find_last_of: the last index holding the character, or npos (-1) when it is absent |
| RaulPath.RootObservers | raul/raul/Path.h:204-236 | the root "/" has the empty name, is its own parent and its own base |
| RaulPath.NameIsValidName | raul/raul/Path.h:204-210 | the name of a valid path holds no '/' and is a valid name |
| RaulPath.ParentIsValid | raul/raul/Path.h:218-222 | the parent of a valid path is a valid path |
| RaulPath.BaseOfParentAndName | raul/raul/Path.h:204-236 | a path other than the root is its parent's base followed by its name |
| RaulPath.ParentShorter | raul/raul/Path.h:218-222 | a path other than the root is strictly longer than its parent |
| RaulPath.ParentBasePrefix | raul/raul/Path.h:218-236 | the parent's base is a prefix of the path |
| RaulPath.ChildIsValid | raul/raul/Path.h:224-236 | parent.base() + a valid name is a valid path |
| RaulPath.ChildRoundTrip | raul/raul/Path.h:224-242 | a child built as parent.base() + name has that parent and that name, and is_child_of the parent |
| RaulPath.ChildOfIsTextual | raul/raul/Path.h:239-242 | is_child_of compares text only: "/ab" counts as a child of "/a" |
| RaulPath.ToUpper | raul/raul/Path.h:168 | toupper in the C locale maps lower-case letters to upper case and leaves every other character alone |
| RaulPath.ReplaceChars | raul/raul/Path.h:164-181 | the character loop of replace_invalid_chars, rewriting the string in place, computes the first pass |
| RaulPath.DeleteStep | raul/raul/Path.h:167-169 | deleting a space or underscore uppercases its successor and the loop then moves past that successor |
| RaulPath.TranslateStep | raul/raul/Path.h:170-180 | brackets and braces become '(' or ')', and unprintable or reserved characters become '.' |
| RaulPath.ChopSpec | raul/raul/Path.h:185-198 | when the bracket loop ends, no '(' is left and the text is no longer |
| RaulPath.ChopBrackets | raul/raul/Path.h:185-198 | the bracket loop computes the bracket pass, None standing for a loop that never ends |
| RaulPath.ReplaceInvalidChars | raul/raul/Path.h:164-199 | replace_invalid_chars is the first pass followed by the bracket pass |
| RaulPath.Slashed | raul/raul/Path.h:122-127 | the text pathify cleans starts with '/' |
| RaulPath.Pathify | raul/raul/Path.h:115-137 | pathify of the empty string is "/"; otherwise the slashed text cleaned by replace_invalid_chars |
| RaulPath.Nameify | raul/raul/Path.h:143-155 | nameify of the empty string is "."; otherwise the text cleaned with slashes replaced |
| RaulPath.FirstPassIdentity | raul/raul/Path.h:164-181 | text without characters to rewrite passes the first pass unchanged |
| RaulPath.PathifyKeepsCleanPaths | raul/raul/Path.h:115-137 | a valid path without underscores or brackets comes back from pathify unchanged |
| RaulPath.UnmatchedOpenHangs | raul/raul/Path.h:185-198 | as written, pathify("a(b") never returns |
| RaulPath.OpenWithoutCloseHangs | raul/raul/Path.h:185-198 | any text holding '(' and no ')' keeps the bracket loop spinning |
| RaulPath.SkippedSpaceGivesInvalidPath | raul/raul/Path.h:166-169 | as written, pathify("a  b") returns "/a b", which is not a valid path |
| RaulPath.SkippedSlashSurvivesNameify | raul/raul/Path.h:143-169 | as written, nameify("a /b") keeps a '/' although nameify should strip every slash |
| RaulPath.NoOpenKept | raul/raul/Path.h:185-198 | text without '(' passes the bracket loop unchanged |
| RaulPath.DoubleSlashGivesInvalidPath | raul/raul/Path.h:115-137 | as written, pathify("a//b") returns "/a//b", which is not a valid path |
| RaulPath.FirstPassFixed | raul/raul/Path.h:164-181 | the corrected first pass leaves only characters is_valid accepts, and no '/' when slashes are replaced |
| RaulPath.ChopFixed | raul/raul/Path.h:185-198 | the corrected bracket pass always ends, leaves no '(' and invents no character |
| RaulPath.CollapseSlashes | raul/raul/Path.h:65-83 | collapsing repeated slashes leaves no "//", invents no character and keeps the first character |
| RaulPath.PathifyFixed | raul/raul/Path.h:110-137 | pathify as documented always returns a valid path |
| RaulPath.IsValid | raul/raul/Path.h:65-102 | is_valid; ChildIsValid, ParentIsValid and PathifyFixed state which paths it accepts |
| RaulPath.IsValidName | raul/raul/Path.h:104-107 | is_valid_name: "/" + name is a valid path; NameIsValidName and ChildIsValid use it |
| RaulPath.Name | raul/raul/Path.h:204-210 | name(); NameIsValidName and ChildRoundTrip state what it returns |
| RaulPath.Parent | raul/raul/Path.h:218-222 | parent(); ParentIsValid, ParentShorter and ChildRoundTrip state what it returns |
| RaulPath.Base | raul/raul/Path.h:231-236 | base(); BaseOfParentAndName and ParentBasePrefix state what it returns |
| RaulPath.IsChildOf | raul/raul/Path.h:239-242 | is_child_of; ChildRoundTrip and ChildOfIsTextual state when it holds |
| RaulPath.FirstPass | raul/raul/Path.h:164-181 | the first pass of replace_invalid_chars as written; ReplaceChars computes it and FirstPassIdentity and SkippedSpaceGivesInvalidPath state what it does |
| RaulPath.ReplaceInvalid | raul/raul/Path.h:164-199 | replace_invalid_chars: both passes, None for a loop that never ends; ReplaceInvalidChars computes it |
| IngenClashAvoider.LeadingDigits | trunk/ingen/src/shared/ClashAvoider.cpp:51 | the digits %u reads: the longest run of decimal digits at the start |
| IngenClashAvoider.ScanUnsigned | trunk/ingen/src/shared/ClashAvoider.cpp:51 | sscanf "%u" succeeds exactly when the text starts with a digit or a sign and a digit, and yields a value below 2^32 |
| IngenClashAvoider.BasePath | trunk/ingen/src/shared/ClashAvoider.cpp:46-59 | the path without its "_N" suffix is a prefix of the path |
| IngenClashAvoider.NoUnderscoreInNumber | trunk/ingen/src/shared/ClashAvoider.cpp:108-109 | the decimal offset written after "_" holds no '_' |
| IngenClashAvoider.LeadingDigitsOfDigits | trunk/ingen/src/shared/ClashAvoider.cpp:51 | all-digit text is read in full |
| IngenClashAvoider.ScanOfDigits | trunk/ingen/src/shared/ClashAvoider.cpp:51 | plain decimal text scans as its value modulo 2^32 |
| IngenClashAvoider.CandidateLastUnderscore | trunk/ingen/src/shared/ClashAvoider.cpp:48 | the last '_' of base + "_" + N is the one before N |
| IngenClashAvoider.CandidateParses | trunk/ingen/src/shared/ClashAvoider.cpp:46-59 | a renamed path base + "_" + N reads back as offset N and base path base |
| IngenClashAvoider.CandidateInjective | trunk/ingen/src/shared/ClashAvoider.cpp:108-109 | different offsets give different candidates |
| IngenClashAvoider.Candidate | trunk/ingen/src/shared/ClashAvoider.cpp:108-109 | the renamed path base + "_" + N; CandidateParses and CandidateInjective state its properties |
| IngenClashAvoider.TrialShift | trunk/ingen/src/shared/ClashAvoider.cpp:93-125 | the offsets the probe tries, counted from the next trial |
| IngenClashAvoider.PendingShrinks | trunk/ingen/src/shared/ClashAvoider.cpp:93-125 | each missed trial leaves fewer avoided candidates, so the probe terminates |
| IngenClashAvoider.FirstFreeIsFirst | trunk/ingen/src/shared/ClashAvoider.cpp:93-125 | the probe ends at a tried offset whose candidate is free, and every earlier trial was taken |
| IngenClashAvoider.FirstFree | trunk/ingen/src/shared/ClashAvoider.cpp:93-125 | the offset the probe ends at; FirstFreeIsFirst states what it is |
| IngenClashAvoider.Consulted | trunk/ingen/src/shared/ClashAvoider.cpp:71-82 | the do-while loop looks up the parent first, then each further ancestor, and consults the root only when it is the path's own parent |
| IngenClashAvoider.FirstIn | trunk/ingen/src/shared/ClashAvoider.cpp:72-82 | the first consulted ancestor with a mapping, None exactly when none has one |
| IngenClashAvoider.MappedAncestor | trunk/ingen/src/shared/ClashAvoider.cpp:71-82 | the ancestor found is mapped and its base is a prefix of the path |
| IngenClashAvoider.ClashAvoider.Exists | trunk/ingen/src/shared/ClashAvoider.cpp:132-143 | exists holds exactly for a path in the store or in the also-avoid set |
| IngenClashAvoider.ClashAvoider.RenamedWith | trunk/ingen/src/shared/ClashAvoider.cpp:93-118 | the renaming branch for a given probe outcome: the path maps to base + "_" + N and the base's offset is updated |
| IngenClashAvoider.ClashAvoider.MapPathMemoised | trunk/ingen/src/shared/ClashAvoider.cpp:63-67 | map_path remembers the image, never changes an earlier mapping, and asked again returns the same image and changes nothing |
| IngenClashAvoider.ClashAvoider.MapPathUnderMappedAncestor | trunk/ingen/src/shared/ClashAvoider.cpp:70-80 | below a mapped ancestor the path keeps its suffix under the ancestor's image |
| IngenClashAvoider.ClashAvoider.MapPathKeepsFreePath | trunk/ingen/src/shared/ClashAvoider.cpp:84-89 | an unmapped path with no mapped ancestor that does not exist maps to itself |
| IngenClashAvoider.ClashAvoider.MapPathRenames | trunk/ingen/src/shared/ClashAvoider.cpp:91-127 | a taken path maps to base + "_" + N, N the first free trial (from the remembered offset in steps of two, otherwise from the read offset or 2 in steps of one); a remembered offset ends at N, otherwise child_name_offset is remembered |
| IngenClashAvoider.ClashAvoider.MapUriKeepsOtherUris | trunk/ingen/src/shared/ClashAvoider.cpp:31-38 | map_uri returns a URI that is not a path unchanged |
| IngenClashAvoider.ClashAvoider.FindMappedAncestor | trunk/ingen/src/shared/ClashAvoider.cpp:71-82 | the ancestor walk returns the nearest consulted mapped ancestor |
| IngenClashAvoider.ClashAvoider.ProbeOffsets | trunk/ingen/src/shared/ClashAvoider.cpp:93-125 | the probing loop ends at the first free offset, bumping a remembered offset as it goes |
| IngenClashAvoider.ClashAvoider.Rename | trunk/ingen/src/shared/ClashAvoider.cpp:91-127 | the renaming branch maps the path as the renaming specification says |
| IngenClashAvoider.ClashAvoider.MapPath | trunk/ingen/src/shared/ClashAvoider.cpp:41-129 | map_path returns the image and new memo the map_path specification gives |
| IngenClashAvoider.ClashAvoider.MapUri | trunk/ingen/src/shared/ClashAvoider.cpp:31-38 | map_uri maps paths through map_path and returns other URIs unchanged |
| IngenClashAvoider.ClashAvoider.Put | trunk/ingen/src/shared/ClashAvoider.cpp:146-151 | put is forwarded with the mapped URI |
| IngenClashAvoider.ClashAvoider.Delta | trunk/ingen/src/shared/ClashAvoider.cpp:154-160 | delta is forwarded with the mapped URI |
| IngenClashAvoider.ClashAvoider.Move | trunk/ingen/src/shared/ClashAvoider.cpp:163-168 | move is forwarded with both paths mapped, left argument first (the order is under Left out) |
| IngenClashAvoider.ClashAvoider.Connect | trunk/ingen/src/shared/ClashAvoider.cpp:171-176 | connect is forwarded with both port paths mapped, left argument first (the order is under Left out) |
| IngenClashAvoider.ClashAvoider.Disconnect | trunk/ingen/src/shared/ClashAvoider.cpp:179-184 | disconnect is forwarded with both port paths mapped, left argument first (the order is under Left out) |
| IngenClashAvoider.ClashAvoider.ForwardSetProperty | trunk/ingen/src/shared/ClashAvoider.cpp:187-193 | set_property is forwarded with the subject mapped |
| IngenClashAvoider.ClashAvoider.Del | trunk/ingen/src/shared/ClashAvoider.cpp:196-200 | del is forwarded with the path mapped |
| MachinaMachine.Cyclic | trunk/machina/src/engine/Machine.cpp:226-234 | the slot probed after i steps from the start, wrapping round the 128 slots |
| MachinaMachine.CyclicNext | trunk/machina/src/engine/Machine.cpp:234 | one more probing step moves to the next slot modulo MAX_ACTIVE_NODES |
| MachinaMachine.FirstEmptyFrom | trunk/machina/src/engine/Machine.cpp:226-235 | probing from a slot meets an empty slot, if any, without wrapping past the start |
| MachinaMachine.FirstEmptyFromIsFirst | trunk/machina/src/engine/Machine.cpp:226-238 | probing finds a slot exactly when some slot is empty, and it is the first empty slot in cyclic order from the start |
| MachinaMachine.CyclicCovers | trunk/machina/src/engine/Machine.cpp:227 | MAX_ACTIVE_NODES probing steps visit every slot |
| MachinaMachine.FreeSlotExists | trunk/machina/src/engine/Machine.cpp:219-239 | enter_node returns false only when every slot is occupied |
| MachinaMachine.EarliestIn | trunk/machina/src/engine/Machine.cpp:200-209 | the scan of earliest_node: a later slot replaces the choice only when it exits strictly earlier |
| MachinaMachine.EarliestIsFirstMinimal | trunk/machina/src/engine/Machine.cpp:195-212 | earliest_node is null exactly when every slot is empty, and otherwise the node of the first slot with minimal exit time |
| MachinaMachine.RemoveEdgesToKeepsOthers | trunk/machina/src/engine/Machine.cpp:164-165 | remove_edges_to leaves no edge to the node and keeps every other edge |
| MachinaMachine.PrunedStep | trunk/machina/src/engine/Machine.cpp:164-165 | pruning one more node updates that node's edges only |
| MachinaMachine.PrunedKeepsEdgesKnown | trunk/machina/src/engine/Machine.cpp:159-166 | remove_node keeps every node's edges leading to known nodes and removes exactly the edges to the removed node |
| MachinaMachine.WithoutKeeps | trunk/machina/src/engine/Machine.cpp:162 | erasing a node from the list keeps the others, distinct and in order |
| MachinaMachine.Wiring | trunk/machina/src/engine/Machine.cpp:246-294 | the wiring has an entry for every node |
| MachinaMachine.SameWiring | trunk/machina/src/engine/Machine.cpp:246-294 | replacing a node's state but not its edges keeps the wiring |
| MachinaMachine.StartSlot | trunk/machina/src/engine/Machine.cpp:226 | enter_node starts probing at rand() modulo MAX_ACTIVE_NODES |
| MachinaMachine.Enter | trunk/machina/src/engine/Machine.cpp:219-239 | enter_node keeps the 128 slots and the node set and consumes exactly one rand() |
| MachinaMachine.EnterFillsOneFreeSlot | trunk/machina/src/engine/Machine.cpp:219-239 | entering fills one empty slot with the node, active at t, and touches no occupied slot and no other node |
| MachinaMachine.Vacate | trunk/machina/src/engine/Machine.cpp:251-253 | emptying the node's slots keeps the number of slots |
| MachinaMachine.Chosen | trunk/machina/src/engine/Machine.cpp:260-276 | the edge a selector's scan chooses leads to a known node |
| MachinaMachine.TotalStep | trunk/machina/src/engine/Machine.cpp:274 | range_min grows by each skipped edge's probability |
| MachinaMachine.ChosenIsFirstHit | trunk/machina/src/engine/Machine.cpp:263-276 | a selector takes the first edge whose range strictly contains the draw and whose head is inactive, and takes none exactly when there is no such edge |
| MachinaMachine.Follow | trunk/machina/src/engine/Machine.cpp:280-291 | following a non-selector's edges keeps the 128 slots and the node set |
| MachinaMachine.FollowOne | trunk/machina/src/engine/Machine.cpp:283-290 | one edge of a non-selector keeps the 128 slots and the node set |
| MachinaMachine.FollowOneCases | trunk/machina/src/engine/Machine.cpp:283-290 | the head is entered exactly when the draw is at most the probability and the head is inactive |
| MachinaMachine.Exit | trunk/machina/src/engine/Machine.cpp:246-294 | exit_node keeps the 128 slots and the node set |
| MachinaMachine.ExitCases | trunk/machina/src/engine/Machine.cpp:258-293 | a selector draws once and selects, any other node follows its edges |
| MachinaMachine.Select | trunk/machina/src/engine/Machine.cpp:258-276 | the selector branch after the draw keeps the 128 slots and the node set |
| MachinaMachine.RecordUpdateConsistent | trunk/machina/src/engine/Machine.cpp:246-294 | changing a node's state but not its edges keeps the snapshot consistent |
| MachinaMachine.EnterGrows | trunk/machina/src/engine/Machine.cpp:219-239 | entering an inactive node only enters that node |
| MachinaMachine.FollowGrows | trunk/machina/src/engine/Machine.cpp:280-291 | following a non-selector's edges only enters inactive heads of those edges, at the current time, into free slots |
| MachinaMachine.VacatedConsistent | trunk/machina/src/engine/Machine.cpp:248-253 | after the node is exited and its slots emptied the snapshot is consistent and the node is inactive and in no slot |
| MachinaMachine.ExitEntersOnlySuccessors | trunk/machina/src/engine/Machine.cpp:246-294 | exit_node leaves the node inactive and out of every slot, then only enters successors that were inactive, at the current time, into slots that were free |
| MachinaMachine.SelectGrows | trunk/machina/src/engine/Machine.cpp:258-276 | the selector branch only enters the head of one of the edges |
| MachinaMachine.SelectorEntersAtMostOne | trunk/machina/src/engine/Machine.cpp:258-276 | a selector enters at most one successor: at most one slot differs from the vacated table |
| MachinaMachine.Start | trunk/machina/src/engine/Machine.cpp:320-332 | the time-zero loop of run keeps the 128 slots and the node set |
| MachinaMachine.StartStep | trunk/machina/src/engine/Machine.cpp:323-331 | the time-zero loop from node i is node i followed by the rest |
| MachinaMachine.StartOne | trunk/machina/src/engine/Machine.cpp:324-330 | one node at time zero: exited if active, then entered if initial, the flag saying whether enter_node succeeded |
| MachinaMachine.StartKeepsSlots | trunk/machina/src/engine/Machine.cpp:320-336 | at time zero no occupied slot is emptied, and when some node was entered some slot is occupied |
| MachinaMachine.EnterKeepsSlots | trunk/machina/src/engine/Machine.cpp:219-239 | entering never empties an occupied slot |
| MachinaMachine.StartEntersInitial | trunk/machina/src/engine/Machine.cpp:320-336 | at time zero the only active listed nodes afterwards are initial ones, and no record outside the list changes |
| MachinaMachine.Machine.constructor | trunk/machina/src/engine/Machine.cpp:37-43 | a new machine has no nodes, every slot empty, time zero, not activated and not finished |
| MachinaMachine.Machine.Copy | trunk/machina/src/engine/Machine.cpp:46-74 | the copy has the same nodes and edges with fresh machine state (deactivated, not finished, every slot empty) and the copied time |
| MachinaMachine.Machine.Activate | trunk/machina/src/engine/machina/Machine.hpp:51 | activate sets the activated flag and nothing else |
| MachinaMachine.Machine.Deactivate | trunk/machina/src/engine/machina/Machine.hpp:52 | deactivate clears the activated flag and nothing else |
| MachinaMachine.Machine.AddNode | trunk/machina/src/engine/Machine.cpp:151-156 | add_node appends a node that is not yet listed |
| MachinaMachine.Machine.RemoveNode | trunk/machina/src/engine/Machine.cpp:159-166 | remove_node erases the node from the list and every remaining node loses its edges to it |
| MachinaMachine.Machine.PruneEdges | trunk/machina/src/engine/Machine.cpp:164-165 | the loop of remove_node applies remove_edges_to to each listed node |
| MachinaMachine.Machine.Reset | trunk/machina/src/engine/Machine.cpp:171-190 | unless finished, every listed node is exited and every slot emptied; time returns to zero and the machine is not finished |
| MachinaMachine.Machine.EarliestNode | trunk/machina/src/engine/Machine.cpp:195-212 | earliest_node returns the first slot's node of minimal exit time, or null when every slot is empty |
| MachinaMachine.Machine.EnterNode | trunk/machina/src/engine/Machine.cpp:219-239 | enter_node fills the first empty slot from a random start with the node, active at the current time; false, with only the random stream advanced, when the table is full |
| MachinaMachine.Machine.ProbeSlots | trunk/machina/src/engine/Machine.cpp:227-235 | the probing loop returns the first empty slot in cyclic order, or none |
| MachinaMachine.Machine.VacateSlots | trunk/machina/src/engine/Machine.cpp:251-253 | the slot loop empties every slot holding the node |
| MachinaMachine.Machine.ExitNode | trunk/machina/src/engine/Machine.cpp:246-294 | exit_node changes the machine as the exit specification says |
| MachinaMachine.Machine.VacateNode | trunk/machina/src/engine/Machine.cpp:248-253 | the node is exited and every slot holding it is emptied |
| MachinaMachine.Machine.Draw | trunk/machina/src/engine/Machine.cpp:260 | rand() normalised: the next value of the random stream |
| MachinaMachine.Machine.ChooseSuccessor | trunk/machina/src/engine/Machine.cpp:261-276 | the selector loop enters the chosen head, as the selection specification says |
| MachinaMachine.Machine.FollowEdges | trunk/machina/src/engine/Machine.cpp:280-291 | the non-selector loop follows every edge, as the follow specification says |
| MachinaMachine.Machine.FollowEdge | trunk/machina/src/engine/Machine.cpp:283-290 | one pass of the non-selector loop |
| MachinaMachine.Machine.EnterInitial | trunk/machina/src/engine/Machine.cpp:320-332 | the time-zero loop computes the time-zero specification and whether some node was entered |
| MachinaMachine.Machine.RestartNode | trunk/machina/src/engine/Machine.cpp:324-330 | one pass of the time-zero loop |
| MachinaMachine.StepOf | trunk/machina/src/engine/Machine.cpp:341-361 | one pass of run's loop on a snapshot: keeps the snapshot consistent and its node set unchanged |
| MachinaMachine.StepOfCases | trunk/machina/src/engine/Machine.cpp:341-361 | the pass goes on exactly when some node is active and the first-minimal one exits before the end of the slice, and then that node is exited at its exit time, which becomes the machine's time; it marks the machine finished exactly when no node is active; otherwise it sets the time to the end of the slice, with every active node exiting at or after it |
| MachinaMachine.RunLoop | trunk/machina/src/engine/Machine.cpp:339-363 | the loop of run with a bound on its passes: when it ends, the machine is finished exactly when no node is active, the value is the time reached less the slice's start, and an unfinished machine stands at the end of the slice with every active node exiting at or after it |
| MachinaMachine.RunOf | trunk/machina/src/engine/Machine.cpp:306-366 | run as a function of the machine's state: keeps the snapshot consistent and its node set unchanged |
| MachinaMachine.RunOfCases | trunk/machina/src/engine/Machine.cpp:309-336 | a finished machine is left as it is and gives 0; at time zero a machine none of whose initial nodes could be entered is the restarted snapshot, marked finished, and gives 0; otherwise the loop ends as RunLoop states |
| MachinaMachine.RunOfOutcome | trunk/machina/src/engine/Machine.cpp:306-366 | the value run reports: the slice's length when the machine is still running at the end of the slice (and then no active node exits before it), else 0 for a machine that could not start or the time it ran until every node was done |
| MachinaMachine.Machine.Run | trunk/machina/src/engine/Machine.cpp:306-366 | the new slots, node records, draw count, time, finished flag and returned value are exactly RunOf of the old state; a finished machine is left unchanged and returns 0 |
| MachinaMachine.Machine.StartAtZero | trunk/machina/src/engine/Machine.cpp:320-337 | at time zero the new slots, node records and draw count are Start of the old ones over the node list, and the machine finishes exactly when no initial node could be entered; at any other time nothing changes and it does not finish |
| MachinaMachine.Machine.RunUntil | trunk/machina/src/engine/Machine.cpp:339-363 | the new state and the returned value are exactly RunLoop of the old state; when it ends, finished exactly when no node is active, otherwise at the end of the slice with every active node exiting at or after it |
| MachinaMachine.Machine.Step | trunk/machina/src/engine/Machine.cpp:341-361 | the new state and whether the loop goes on are exactly StepOf of the old state |
| MachinaUpdates.Unsigned32 | trunk/machina/src/engine/Updates.cpp:37-38 | an int32_t is written as its 32-bit two's-complement pattern |
| MachinaUpdates.Signed32 | trunk/machina/src/engine/Updates.cpp:75-78 | the pattern read back is an int32_t |
| MachinaUpdates.Word | trunk/machina/src/engine/Updates.cpp:31 | a 32-bit field takes four bytes |
| MachinaUpdates.FromWord | trunk/machina/src/engine/Updates.cpp:68 | four bytes read back as a 32-bit value |
| MachinaUpdates.FromWordOfWord | trunk/machina/src/engine/Updates.cpp:31-38 | a 32-bit field reads back as written |
| MachinaUpdates.Long | trunk/machina/src/engine/Updates.cpp:50 | a 64-bit field takes eight bytes |
| MachinaUpdates.FromLong | trunk/machina/src/engine/Updates.cpp:92 | eight bytes read back as a 64-bit value |
| MachinaUpdates.FromLongOfLong | trunk/machina/src/engine/Updates.cpp:50-56 | a 64-bit field reads back as written |
| MachinaUpdates.CString | trunk/machina/src/engine/Updates.cpp:96 | the text of a C string: the bytes before the first zero, which is where it stops |
| MachinaUpdates.CStringOfTerminated | trunk/machina/src/engine/Updates.cpp:48-52 | a terminated string's text is the string |
| MachinaUpdates.DecodeAtom | trunk/machina/src/engine/Updates.cpp:63-112 | read_atom's byte count is at least the 4-byte tag and at most what is queued |
| MachinaUpdates.WordPrefix | trunk/machina/src/engine/Updates.cpp:63-68 | the first four bytes of a record are the tag written and the rest follows |
| MachinaUpdates.DecodeEncodeAtom | trunk/machina/src/engine/Updates.cpp:26-112 | every atom but a float reads back as written, with the byte count written, whatever follows it |
| MachinaUpdates.DecodeEncodeFixed | trunk/machina/src/engine/Updates.cpp:40-43 | with the FLOAT branch corrected, every atom reads back as written |
| MachinaUpdates.TextDecodes | trunk/machina/src/engine/Updates.cpp:48-57 | a string or URI reads back with its length field, its bytes and its terminator counted |
| MachinaUpdates.FloatReadsStale | trunk/machina/src/engine/Updates.cpp:40-43 | as written, a float atom reads back as the uninitialised temporary, whatever its value, and different floats are written identically |
| MachinaUpdates.DecodeSet | trunk/machina/src/engine/Updates.cpp:127-141 | read_set's count is at least the 16 header bytes plus a 4-byte atom tag and at most what is queued |
| MachinaUpdates.Header | trunk/machina/src/engine/Updates.cpp:120-123 | the update tag, subject and key take 16 bytes |
| MachinaUpdates.HeaderFields | trunk/machina/src/engine/Updates.cpp:120-137 | the header reads back as the tag, subject and key written |
| MachinaUpdates.DecodeEncodeSet | trunk/machina/src/engine/Updates.cpp:114-141 | a set-property record without a float reads back exactly, with its whole length counted |
| MachinaUpdates.RecordsInSequence | trunk/machina/src/engine/Updates.cpp:114-141 | two records written in turn read back in turn: reading the first leaves exactly the second |
| MachinaUpdates.UpdateBuffer.constructor | trunk/machina/src/engine/Updates.cpp:26-31 | the queue starts empty |
| MachinaUpdates.UpdateBuffer.Write | trunk/machina/src/engine/Updates.cpp:31 | write appends at the back |
| MachinaUpdates.UpdateBuffer.Read | trunk/machina/src/engine/Updates.cpp:68 | read takes n bytes from the front, or nothing when fewer are queued |
| MachinaUpdates.WriteAtom | trunk/machina/src/engine/Updates.cpp:26-61 | write_atom appends the atom's encoding |
| MachinaUpdates.WriteText | trunk/machina/src/engine/Updates.cpp:48-57 | the string branches append the length with terminator, then the bytes |
| MachinaUpdates.ReadAtom | trunk/machina/src/engine/Updates.cpp:63-112 | read_atom returns the decoded atom and count and consumes exactly the counted bytes |
| MachinaUpdates.WriteSet | trunk/machina/src/engine/Updates.cpp:114-125 | write_set appends one set-property record |
| MachinaUpdates.EncodeAtom | trunk/machina/src/engine/Updates.cpp:26-61 | the bytes write_atom writes as written; DecodeEncodeAtom and FloatReadsStale state what reads back |
| MachinaUpdates.EncodeAtomFixed | trunk/machina/src/engine/Updates.cpp:40-43 | corrected, as the Updates.cpp:40-43 Findings row records: the bytes write_atom writes; DecodeEncodeFixed states that every atom reads back |
| MachinaUpdates.EncodeSet | trunk/machina/src/engine/Updates.cpp:114-125 | the bytes write_set writes; DecodeEncodeSet states that they read back |
| MachinaUpdates.ReadSet | trunk/machina/src/engine/Updates.cpp:127-141 | read_set returns the decoded record and count and consumes exactly the counted bytes |
| MachinaClient.Lookup | trunk/machina/src/client/ClientObject.cpp:43-52 | get returns the stored atom, or the null atom when the key was never set |
| MachinaClient.LookupAfterSet | trunk/machina/src/client/ClientObject.cpp:36-52 | after set, get gives the value set and every other key is unaffected |
| MachinaClient.ClientObject.constructor | trunk/machina/src/client/ClientObject.cpp:25-28 | a new object has its id, no properties and no view |
| MachinaClient.ClientObject.Copy | trunk/machina/src/client/ClientObject.cpp:30-34 | the copy has the new id and the same properties, and no view |
| MachinaClient.ClientObject.Set | trunk/machina/src/client/ClientObject.cpp:36-41 | set stores the value, emits the property signal, and leaves every other key alone |
| MachinaClient.ClientObject.SetView | trunk/machina/src/client/ClientObject.hpp:51 | set_view changes the view only |
| MachinaClient.ClientModel.constructor | trunk/machina/src/client/ClientModel.hpp:32-52 | a new model holds no objects and has emitted no signal |
| MachinaClient.ClientModel.Find | trunk/machina/src/client/ClientModel.cpp:23-32 | find returns the object with that id exactly when one is held |
| MachinaClient.ClientModel.NewObject | trunk/machina/src/client/ClientModel.cpp:34-39 | new_object inserts an object whose id is not held yet, keeps the set otherwise, and signals either way |
| MachinaClient.ClientModel.EraseObject | trunk/machina/src/client/ClientModel.cpp:41-52 | erase_object signals a held object, clears its view and removes it; an absent id changes nothing |
| MachinaClient.ClientModel.Property | trunk/machina/src/client/ClientModel.cpp:54-60 | property sets the key on the object with that id, if any |
| ParsePlugin.SignEnd | trunk/plugins/lolep.lv2/src/parse.cpp:66 | the digits start after one leading '-' or '+', if any |
| ParsePlugin.IntShapeIsFloatShape | trunk/plugins/lolep.lv2/src/parse.cpp:64-96 | every string is_int accepts, is_float accepts too |
| ParsePlugin.EmptyAndSignAreInts | trunk/plugins/lolep.lv2/src/parse.cpp:64-74 | the empty string and a bare sign pass is_int |
| ParsePlugin.IsInt | trunk/plugins/lolep.lv2/src/parse.cpp:64-74 | is_int holds exactly for an optional sign followed by digits only |
| ParsePlugin.IsFloat | trunk/plugins/imum.lv2/src/parse.cpp:75-95 | is_float holds exactly for an optional sign, digits, and optionally a '.' followed by digits |
| ParsePlugin.LoneQuoteWraps | trunk/plugins/lolep.lv2/src/parse.cpp:128-136 | as written, a lone '"' gives a string of size 0xFFFFFFFF whose copy overruns |
| ParsePlugin.FixedQuotedText | trunk/plugins/lolep.lv2/src/parse.cpp:128-136 | corrected, no input overruns, a lone '"' leaves the output as it was, and a quoted text gives its inner text and size |
| ParsePlugin.NonStringInput | trunk/plugins/lolep.lv2/src/parse.cpp:107-111 | anything but a string atom empties the output without marking it valid |
| ParsePlugin.ClassificationOrder | trunk/plugins/lolep.lv2/src/parse.cpp:113-127 | "true" and "false" give a 4-byte bool 1 or 0, "null" an empty atom, and integer-shaped text an int before the float test |
| ParsePlugin.UnrecognisedInput | trunk/plugins/lolep.lv2/src/parse.cpp:137-141 | text that is no keyword, number or quoted string empties the output without marking it valid |
| ParsePlugin.OutputPort.constructor | trunk/plugins/imum.lv2/src/parse.cpp:102-103 | the output port holds the given type, size, body and validity |
| ParsePlugin.OutputPort.MessageRun | trunk/plugins/lolep.lv2/src/parse.cpp:98-145 | message_run writes the output port as the classification says |
| ParsePlugin.Outcome | trunk/plugins/lolep.lv2/src/parse.cpp:98-145 | the output message_run writes as written; ClassificationOrder, NonStringInput, UnrecognisedInput and LoneQuoteWraps state it |
| ParsePlugin.OutcomeFixed | trunk/plugins/lolep.lv2/src/parse.cpp:128-136 | corrected, as the parse.cpp:128-136 Findings row records: the output; FixedQuotedText states it |
| RdfRead.PadTo | trunk/plugins/lolep.lv2/src/rdf-read.cpp:127-131 | lv2_atom_pad_size for an alignment of 4 or 8 bytes: the least multiple of the alignment at or above the size |
| RdfRead.PadSize | trunk/plugins/lolep.lv2/src/rdf-read.cpp:127-131 | lv2_atom_pad_size at the alignment the model takes, 8: rounds up to the next multiple of 8 |
| RdfRead.AlignmentDecidesAgreement | trunk/plugins/lolep.lv2/src/rdf-read.cpp:131-164 | a 4-byte header plus a body padded to 4 always equals the whole atom padded to 4, and never equals it when padding is to 8: the count and the writer agree exactly under 4-byte alignment |
| RdfRead.LessIsStrictTotalOrder | trunk/plugins/lolep.lv2/src/rdf-read.cpp:71-77 | ObjectID's operator< (type, then context, then id) is a strict total order, as a std::map key order must be |
| RdfRead.MakeObjectID | trunk/plugins/lolep.lv2/src/rdf-read.cpp:60-69 | ObjectID's constructor, whose assertion on the type is its requires |
| RdfRead.BodySize | trunk/plugins/lolep.lv2/src/rdf-read.cpp:266-318 | the size field of a value atom: 4 for an id, blank id, int or float; 4 + length + 1 for a string (an unbounded natural; the 16-bit wrap is under Left out) |
| RdfRead.LiteralValue | trunk/plugins/lolep.lv2/src/rdf-read.cpp:287-318 | an xsd:integer literal becomes an int, an xsd:decimal a float, any other datatype a string |
| RdfRead.StringCopyOverruns | trunk/plugins/lolep.lv2/src/rdf-read.cpp:310-317 | as written, the copy of a string literal and its terminator runs one byte past its allocation |
| RdfRead.StringAllocationFixed | trunk/plugins/lolep.lv2/src/rdf-read.cpp:312 | the corrected allocation holds the atom header and its whole body |
| RdfRead.StringAllocation | trunk/plugins/lolep.lv2/src/rdf-read.cpp:312 | the bytes malloc'ed for a string literal as written; StringCopyOverruns states what it misses |
| RdfRead.UpperBound | trunk/plugins/lolep.lv2/src/rdf-read.cpp:326 | multimap::insert places an entry after every entry whose key is not greater |
| RdfRead.InsertProperty | trunk/plugins/lolep.lv2/src/rdf-read.cpp:326 | inserting a property adds exactly that entry, keeps the keys ordered, and keeps equal keys in insertion order |
| RdfRead.InsertKeepsOrder | trunk/plugins/lolep.lv2/src/rdf-read.cpp:326 | inserting at the upper bound keeps the keys ordered |
| RdfRead.FreshLabelsDistinct | trunk/plugins/lolep.lv2/src/rdf-read.cpp:94 | a new model has no blank labels |
| RdfRead.BlankIdStable | trunk/plugins/lolep.lv2/src/rdf-read.cpp:96-105 | blank_id returns the id a name was first given and changes nothing; a new name gets next_id, which goes up by one; the first id is 1 |
| RdfRead.BlankIdKeepsLabelsDistinct | trunk/plugins/lolep.lv2/src/rdf-read.cpp:96-105 | blank_id gives different names different ids |
| RdfRead.CountStaysOne | trunk/plugins/lolep.lv2/src/rdf-read.cpp:280-284 | as written, the lookup keyed by the blank-id atom never finds the blank, so counting a reference never takes a count above 1 |
| RdfRead.TwoReferencesCountOne | trunk/plugins/lolep.lv2/src/rdf-read.cpp:272-285 | as written, a blank referenced twice is counted once |
| RdfRead.CountsReferences | trunk/plugins/lolep.lv2/src/rdf-read.cpp:272-285 | corrected, each blank's count goes up by the number of references to it |
| RdfRead.CountReference | trunk/plugins/lolep.lv2/src/rdf-read.cpp:280-284 | the reference count as written; CountStaysOne states what it does |
| RdfRead.CountReferenceFixed | trunk/plugins/lolep.lv2/src/rdf-read.cpp:272-285 | corrected: the count looked up under the key it is stored under; CountsReferences states what it does |
| RdfRead.WithEntry | trunk/plugins/lolep.lv2/src/rdf-read.cpp:227-229 | find-or-insert adds an empty property multimap for a new subject and keeps every other object |
| RdfRead.ObjectValue | trunk/plugins/lolep.lv2/src/rdf-read.cpp:260-324 | the object's value leaves the objects unchanged (a blank object only draws an id and is counted) |
| RdfRead.SubjectObject | trunk/plugins/lolep.lv2/src/rdf-read.cpp:221-245 | a subject that is a URI or a blank node finds or creates its object; any other subject is refused |
| RdfRead.BadSubjectChangesNothing | trunk/plugins/lolep.lv2/src/rdf-read.cpp:242-244 | a subject that is neither a URI nor a blank node changes nothing |
| RdfRead.SubjectObjectAddsEmpty | trunk/plugins/lolep.lv2/src/rdf-read.cpp:221-241 | finding or creating the subject's object only adds an empty one, and perhaps a blank id |
| RdfRead.BadPredicateAddsNoProperty | trunk/plugins/lolep.lv2/src/rdf-read.cpp:247-258 | a predicate that is not a URI adds no entry and counts nothing, though the subject's object has been created |
| RdfRead.ObjectValueValid | trunk/plugins/lolep.lv2/src/rdf-read.cpp:260-324 | the object's value keeps the model valid, and is missing exactly for an unknown object type |
| RdfRead.SubjectObjectValid | trunk/plugins/lolep.lv2/src/rdf-read.cpp:221-241 | finding or creating the subject's object keeps the model valid |
| RdfRead.AddEntryValid | trunk/plugins/lolep.lv2/src/rdf-read.cpp:326 | adding an entry keeps the model valid |
| RdfRead.HandleValid | trunk/plugins/lolep.lv2/src/rdf-read.cpp:216-327 | every statement keeps the model valid |
| RdfRead.HandleAddsOneEntry | trunk/plugins/lolep.lv2/src/rdf-read.cpp:216-327 | a statement with a URI subject and predicate adds exactly one entry, the predicate and the object's value, to the subject's object and leaves every other resource as it was |
| RdfRead.Handle | trunk/plugins/lolep.lv2/src/rdf-read.cpp:216-327 | rdf_statement_handler on the model; HandleValid and HandleAddsOneEntry state what it does |
| RdfRead.ObjectOnlyBlankUnpresumed | trunk/plugins/lolep.lv2/src/rdf-read.cpp:107-115 | as written, a blank that only occurs as an object is counted but has no object, so abbreviate moves a missing entry |
| RdfRead.AbbreviatedSplitsBlanks | trunk/plugins/lolep.lv2/src/rdf-read.cpp:107-115 | abbreviate makes each blank top-level or inline, not both, inline exactly when counted once, and loses no object |
| RdfRead.Abbreviated | trunk/plugins/lolep.lv2/src/rdf-read.cpp:107-115 | corrected, as the rdf-read.cpp:107-115 Findings row records: abbreviate; AbbreviatedSplitsBlanks states what it does |
| RdfRead.EveryReferencedBlankInlined | trunk/plugins/lolep.lv2/src/rdf-read.cpp:107-115 | with counts stuck at 1, abbreviate inlines every referenced blank |
| RdfRead.FewerUnvisited | trunk/plugins/lolep.lv2/src/rdf-read.cpp:119-134 | each nested inline blank visited leaves fewer to visit |
| RdfRead.PropertyDefinedAlike | trunk/plugins/lolep.lv2/src/rdf-read.cpp:119-165 | object_atom_size and write_property have a result for the same properties |
| RdfRead.PropsDefinedAlike | trunk/plugins/lolep.lv2/src/rdf-read.cpp:119-183 | the same for a whole property multimap |
| RdfRead.CountedProperty | trunk/plugins/lolep.lv2/src/rdf-read.cpp:119-132 | the bytes object_atom_size counts for a property; CountAndWriteDisagree and PropertyDefinedAlike state its relation to the writer |
| RdfRead.WrittenProperty | trunk/plugins/lolep.lv2/src/rdf-read.cpp:145-165 | the bytes write_property advances by; CountAndWriteDisagree and PropertyDefinedAlike state its relation to the count |
| RdfRead.CountAndWriteDisagree | trunk/plugins/lolep.lv2/src/rdf-read.cpp:119-165 | with padding to 8, for a value written in place, the size counted (header plus padded body) and the size written (padded atom) differ by exactly 4 |
| RdfRead.TotalRemove | trunk/plugins/lolep.lv2/src/rdf-read.cpp:136-143 | the summed sizes do not depend on which object is taken first |
| RdfRead.TotalOfOne | trunk/plugins/lolep.lv2/src/rdf-read.cpp:136-143 | the sum over one object is its size |
| RdfRead.OneIntModelRejected | trunk/plugins/lolep.lv2/src/rdf-read.cpp:357-376 | as written and with padding to 8, a single object with one int property counts 28 bytes and writes 24, so the output is never marked valid |
| RdfRead.AbbreviateStep | trunk/plugins/lolep.lv2/src/rdf-read.cpp:108-114 | one turn of abbreviate's loop moves the blank exactly when its count is 1 |
| RdfRead.MoveStep | trunk/plugins/lolep.lv2/src/rdf-read.cpp:110-112 | moving a blank inserts it into the inline blanks and erases it from the blanks |
| RdfRead.RdfModel.constructor | trunk/plugins/lolep.lv2/src/rdf-read.cpp:94 | a new model is empty with next_id 1 |
| RdfRead.RdfModel.BlankId | trunk/plugins/lolep.lv2/src/rdf-read.cpp:96-105 | blank_id changes the model and returns the id as the blank-id specification says |
| RdfRead.RdfModel.ValueOf | trunk/plugins/lolep.lv2/src/rdf-read.cpp:260-324 | the object's value atom, drawing and counting a blank id for a blank object |
| RdfRead.RdfModel.FindSubject | trunk/plugins/lolep.lv2/src/rdf-read.cpp:221-245 | the subject part of the statement handler finds or creates the subject's object |
| RdfRead.RdfModel.AddProperty | trunk/plugins/lolep.lv2/src/rdf-read.cpp:326 | properties->insert adds the entry to the subject's multimap |
| RdfRead.RdfModel.HandleStatement | trunk/plugins/lolep.lv2/src/rdf-read.cpp:216-327 | rdf_statement_handler changes the model as the statement specification says |
| RdfRead.RdfModel.Abbreviate | trunk/plugins/lolep.lv2/src/rdf-read.cpp:107-115 | abbreviate changes the model as the abbreviation specification says |
| RdfRead.RdfModel.SingleObject | trunk/plugins/lolep.lv2/src/rdf-read.cpp:117 | single_object holds exactly when there is one top-level object |
| RdfRead.RdfModel.ObjectAtomSize | trunk/plugins/lolep.lv2/src/rdf-read.cpp:119-134 | object_atom_size is the headers plus each property as counted |
| RdfRead.RdfModel.SumObjects | trunk/plugins/lolep.lv2/src/rdf-read.cpp:138-141 | the loop sums the counted sizes of one map's objects |
| RdfRead.RdfModel.AtomSize | trunk/plugins/lolep.lv2/src/rdf-read.cpp:136-143 | atom_size is the counted total of the resources and the blanks |
| RdfRead.RdfModel.WriteObject | trunk/plugins/lolep.lv2/src/rdf-read.cpp:167-183 | the corrected write_object ends exactly object_atom_size further on |
| RdfRead.RdfModel.WriteObjects | trunk/plugins/lolep.lv2/src/rdf-read.cpp:186-189 | the write loop over one map ends exactly its summed size further on |
| RdfRead.RdfModel.Write | trunk/plugins/lolep.lv2/src/rdf-read.cpp:185-190 | the corrected write ends exactly atom_size further on |
| RdfRead.RdfModel.Emit | trunk/plugins/lolep.lv2/src/rdf-read.cpp:355-389 | message_run over the corrected writer of the rdf-read.cpp:357-376 Findings row and the corrected head of the rdf-read.cpp:382 row: the size has a Model header unless there is a single object, the output is valid exactly when resized, and the objects then end exactly at the size |
| RdfRead.ModelHeaderOverwritten | trunk/plugins/lolep.lv2/src/rdf-read.cpp:380-384 | as written, the Model header's type byte is changed, and the objects start over the header and stop short of the size |
| RdfRead.ModelHeaderKept | trunk/plugins/lolep.lv2/src/rdf-read.cpp:380-384 | corrected, the header is kept and the objects fill the rest of the output exactly |
| RdfRead.SkipModelHeaderAsWritten | trunk/plugins/lolep.lv2/src/rdf-read.cpp:382 | *head += sizeof(LV2_Object) as written; ModelHeaderOverwritten states what it does |
| RdfRead.SkipModelHeader | trunk/plugins/lolep.lv2/src/rdf-read.cpp:382 | corrected: head moves past the Model header; ModelHeaderKept states what it does |
| GenData.ToLower | trunk/mda-lv2/lvz/gendata.cpp:61 | tolower in the C locale lowers capitals and leaves every other character alone |
| GenData.Underscored | trunk/mda-lv2/lvz/gendata.cpp:56-59 | the first loop keeps the length (each space becomes '_') |
| GenData.LowerFirst | trunk/mda-lv2/lvz/gendata.cpp:61 | lowering the first character keeps the length |
| GenData.Split | trunk/mda-lv2/lvz/gendata.cpp:63-71 | the second loop only lengthens the text and keeps its first and last characters |
| GenData.Clean | trunk/mda-lv2/lvz/gendata.cpp:73-84 | the third loop keeps the first character |
| GenData.AppendShaped | trunk/mda-lv2/lvz/gendata.cpp:73-84 | each character the third loop emits keeps the symbol shape |
| GenData.CleanShape | trunk/mda-lv2/lvz/gendata.cpp:73-84 | after its first character the third loop's output holds only lowercase letters, digits and single '_'s |
| GenData.SymbolShape | trunk/mda-lv2/lvz/gendata.cpp:51-87 | a symbol is empty only for an empty name, starts with the name's first character (space to '_', capital lowered) and then holds only lowercase letters, digits and single '_'s |
| GenData.ShapeEitherWay | trunk/mda-lv2/lvz/gendata.cpp:51-87 | under either camel-case test, a symbol is empty only for an empty name, starts with the name's first character (space to '_', capital lowered) and then holds only lowercase letters, digits and single '_'s |
| GenData.SymbolFixedShape | trunk/mda-lv2/lvz/gendata.cpp:51-87 | the corrected symbolify keeps that shape: empty only for an empty name, the name's first character first, then only lowercase letters, digits and single '_'s |
| GenData.LikeThisLowered | trunk/mda-lv2/lvz/gendata.cpp:56-61 | "LikeThis" enters the second loop as "likeThis" |
| GenData.Strip | trunk/mda-lv2/lvz/gendata.cpp:63-71 | taking every '_' out never lengthens a text |
| GenData.StripSnoc | trunk/mda-lv2/lvz/gendata.cpp:63-71 | taking '_' out of a text with one more character |
| GenData.SplitOnlyInserts | trunk/mda-lv2/lvz/gendata.cpp:63-71 | the second loop only inserts '_' |
| GenData.SplitLast | trunk/mda-lv2/lvz/gendata.cpp:64-71 | the second loop's output for n characters extends its output for n - 1 by perhaps a '_' and the n-th character |
| GenData.SplitQuiet | trunk/mda-lv2/lvz/gendata.cpp:64-71 | with no word boundary, the second loop changes nothing |
| GenData.LikeThisSplit | trunk/mda-lv2/lvz/gendata.cpp:64-71 | as written, the second loop leaves "likeThis" alone |
| GenData.LikeThisSplitFixed | trunk/mda-lv2/lvz/gendata.cpp:64-71 | corrected, the second loop splits "likeThis" into "like_This" |
| GenData.LikeThisCleaned | trunk/mda-lv2/lvz/gendata.cpp:73-84 | the third loop turns "likeThis" into "likethis" |
| GenData.LikeThisCleanedFixed | trunk/mda-lv2/lvz/gendata.cpp:73-84 | the third loop turns "like_This" into "like_this" |
| GenData.LikeThisAsWritten | trunk/mda-lv2/lvz/gendata.cpp:63-71 | as written, symbolify("LikeThis") is "likethis": the test 'Z' <= next <= 'a' misses the lowercase 'h' |
| GenData.LikeThisFixed | trunk/mda-lv2/lvz/gendata.cpp:63-71 | corrected, symbolify("LikeThis") is "like_this", as the comment at line 63 says |
| GenData.SymbolOf | trunk/mda-lv2/lvz/gendata.cpp:51-87 | symbolify as written; SymbolShape and LikeThisAsWritten state what it returns |
| GenData.SymbolOfFixed | trunk/mda-lv2/lvz/gendata.cpp:51-87 | corrected, as the gendata.cpp:63-71 Findings row records: symbolify; LikeThisFixed and SymbolFixedShape state what it returns |
| GenData.Boundary | trunk/mda-lv2/lvz/gendata.cpp:64-71 | the camel-case test as written, 'Z' <= next <= 'a'; LikeThisSplit states what it misses |
| GenData.BoundaryFixed | trunk/mda-lv2/lvz/gendata.cpp:63-71 | corrected: a capital followed by a lowercase letter; LikeThisSplitFixed states what it finds |
| GenData.Symbolify | trunk/mda-lv2/lvz/gendata.cpp:51-87 | symbolify's three loops, rewriting the string in place, compute the symbol specification |
| GenData.SplitCamelCase | trunk/mda-lv2/lvz/gendata.cpp:64-71 | the second loop computes the split specification |
| GenData.SplitStep | trunk/mda-lv2/lvz/gendata.cpp:64-71 | one pass of the second loop keeps its invariant, whether or not it inserts a '_' |
| GenData.CleanUp | trunk/mda-lv2/lvz/gendata.cpp:74-84 | the third loop computes the cleaning specification |
| GenData.CleanStep | trunk/mda-lv2/lvz/gendata.cpp:74-84 | each of the third loop's three branches keeps its invariant |
| GenData.LastDot | trunk/mda-lv2/lvz/gendata.cpp:93 | find_last_of("."): the last '.' of a file name, or none |
| GenData.BaseName | trunk/mda-lv2/lvz/gendata.cpp:93 | the library file name without its last extension, or all of it when it has none |
| GenData.GuiListed | trunk/mda-lv2/lvz/gendata.cpp:159-176 | after write_gui the plugin's record ends with the GUI; an unknown plugin gets an "ERRNOBASE" record with that GUI alone; no other record or base name changes except the one keyed by the library file name |
| GenData.WithGui | trunk/mda-lv2/lvz/gendata.cpp:158-176 | the plugin records after write_gui; GuiListed states what changes |
| GenData.Manifests.constructor | trunk/mda-lv2/lvz/gendata.cpp:45-48 | both manifests start empty |
| GenData.Manifests.WritePlugin | trunk/mda-lv2/lvz/gendata.cpp:91-155 | write_plugin records the base name: a known URI keeps its GUIs, a new one gets a record with none, and no other record changes |
| GenData.Manifests.WriteGui | trunk/mda-lv2/lvz/gendata.cpp:158-176 | write_gui records the GUI with its base name and lists it under its plugin |
| EvoralEvent.Memcpy | trunk/evoral/evoral/Event.hpp:66 | memcpy places the first n bytes of the source at the front of the destination and leaves the rest of it alone |
| EvoralEvent.Realloc | trunk/evoral/evoral/Event.hpp:64 | realloc gives a new buffer of the size asked for that starts with as many of the old bytes as fit |
| EvoralEvent.Event.Bytes | trunk/evoral/evoral/Event.hpp:169-173 | an event's bytes are size bytes long |
| EvoralEvent.Event.constructor | trunk/evoral/evoral/Event.hpp:46 | Event(type, time, size, buffer, alloc): with alloc the event owns a fresh copy of size bytes, without it it points at the given buffer |
| EvoralEvent.Event.Assign | trunk/evoral/evoral/Event.hpp:58-77 | operator= copies the header; an owning event copies the other's bytes, growing its buffer when too small, or frees its buffer when the other has none; a non-owning event shares the other's buffer |
| EvoralEvent.Event.ShallowCopy | trunk/evoral/evoral/Event.hpp:79-90 | shallow_copy frees an owned buffer, then takes the other's header and points at its buffer (null when it copied itself while owning) |
| EvoralEvent.Event.Set | trunk/evoral/evoral/Event.hpp:92-104 | set changes time and size; an owning event copies the bytes, growing its buffer when too small; a non-owning one points at them |
| EvoralEvent.Event.Equals | trunk/evoral/evoral/Event.hpp:106-124 | operator== holds exactly when type, time and size agree and the buffers are shared or hold the same size bytes |
| EvoralEvent.Event.SetBuffer | trunk/evoral/evoral/Event.hpp:130-138 | set_buffer frees an owned buffer and adopts the given size, buffer and ownership |
| EvoralEvent.Event.Reallocate | trunk/evoral/evoral/Event.hpp:140-150 | realloc leaves the event owning a buffer of the new size: an owned buffer grows, keeping its bytes, only for a larger size; a borrowed one is replaced |
| EvoralEvent.Event.Clear | trunk/evoral/evoral/Event.hpp:152-157 | clear zeroes type, time and size and forgets the buffer without freeing it |
| EvoralNote.ChannelOf | trunk/evoral/evoral/Note.hpp:53-56 | the channel is the status byte's low nibble, below 16 |
| EvoralNote.WithChannel | trunk/evoral/evoral/Note.hpp:62 | set_channel keeps the command nibble and every other field, and sets the channel |
| EvoralNote.CommandChannel | trunk/evoral/src/Note.cpp:33-39 | a status built as command plus channel has that command and that channel |
| EvoralNote.Note.Length | trunk/evoral/evoral/Note.hpp:52 | the length is the end time minus the start time |
| EvoralNote.Note.Channel | trunk/evoral/evoral/Note.hpp:53-56 | the note's channel is the off-event's, and the same as the on-event's |
| EvoralNote.Note.constructor | trunk/evoral/src/Note.cpp:25-47 | a new note has the given start, length, note number, velocity and channel, with off velocity 0x40 |
| EvoralNote.Note.Copy | trunk/evoral/src/Note.cpp:50-74 | the copy holds the same events, so it agrees with the original on every observer and equals it under every reflexive time comparison, musical_time_equal included |
| EvoralNote.Note.Assign | trunk/evoral/src/Note.cpp:81-97 | operator= copies both events, so the note equals the other under every reflexive time comparison |
| EvoralNote.Note.SetTime | trunk/evoral/evoral/Note.hpp:58 | set_time moves both events and keeps the length |
| EvoralNote.Note.SetNote | trunk/evoral/evoral/Note.hpp:59 | set_note sets the note number of both events |
| EvoralNote.Note.SetVelocity | trunk/evoral/evoral/Note.hpp:60 | set_velocity changes the on-event's velocity only |
| EvoralNote.Note.SetLength | trunk/evoral/evoral/Note.hpp:61 | set_length moves the end and keeps the start |
| EvoralNote.Note.SetChannel | trunk/evoral/evoral/Note.hpp:62 | set_channel sets the channel of both events |
| EvoralNote.EqualsReflexiveSymmetric | trunk/evoral/evoral/Note.hpp:40-46 | under any reflexive and symmetric time comparison, such as musical_time_equal, note equality is reflexive and symmetric |
| EvoralNote.EqualsTransitive | trunk/evoral/evoral/Note.hpp:40-46 | note equality is transitive when the time comparison is, as exact comparison is |
| EvoralNote.ToleranceNotTransitive | trunk/evoral/evoral/Note.hpp:41-43 | a tolerance comparison of times is reflexive and symmetric but not transitive, so operator== is not an equivalence |
| EvoralNote.Note.Equals | trunk/evoral/evoral/Note.hpp:40-46 | operator==: start and length alike under the given time comparison, same note number, velocity and channel; EqualsReflexiveSymmetric and EqualsTransitive state its properties |
| EvoralNote.Note.Time | trunk/evoral/evoral/Note.hpp:48 | time(): the on-event's time; Length states its relation to EndTime |
| EvoralNote.Note.EndTime | trunk/evoral/evoral/Note.hpp:49 | end_time(): the off-event's time; Length states its relation to Time |
| EvoralNote.Note.NoteNumber | trunk/evoral/evoral/Note.hpp:50 | note(): the on-event's note number; SetNote and the constructor state how it is set |
| EvoralNote.Note.Velocity | trunk/evoral/evoral/Note.hpp:51 | velocity(): the on-event's velocity; SetVelocity and the constructor state how it is set |
| Prefixes.ProperPrefixIsLess | trunk/redlandmm/src/World.cpp:74 | a proper prefix comes first in std::string order, so the map visits it first |
| Prefixes.MatchesNest | trunk/redlandmm/src/World.cpp:74-76 | two prefixes that both match a URI are equal or one is a proper prefix of the other |
| Prefixes.FirstMatch | trunk/redlandmm/src/World.cpp:74-76 | the first ':' from a position on whose left part is a registered prefix: no earlier such ':' exists |
| Prefixes.ExpandIsFirstInKeyOrder | trunk/redlandmm/src/World.cpp:68-79 | the loop in key order expands exactly when some prefix matches, and then with the matching prefix std::string order puts first |
| Prefixes.ExpandRegistered | trunk/redlandmm/src/World.cpp:74-76 | a registered prefix without ':' expands "prefix:rest" to its namespace followed by rest |
| Prefixes.NoColonNoMatch | trunk/redlandmm/src/World.cpp:71-72 | a URI without ':' matches no prefix |
| Prefixes.Expand | trunk/redlandmm/src/World.cpp:68-79 | the expansion by the first matching prefix in key order; ExpandIsFirstInKeyOrder states what it returns |
| RedlandWorld.ExpandUriCases | trunk/redlandmm/src/World.cpp:68-79 | expand_uri returns a URI without ':' unchanged, expands "p:rest" for a registered p to p's namespace followed by rest, and returns a URI no prefix matches unchanged |
| RedlandWorld.ExpandUri | trunk/redlandmm/src/World.cpp:68-79 | expand_uri; ExpandUriCases states what it returns |
| RedlandWorld.RetriesGrow | trunk/redlandmm/src/World.cpp:98-102 | each retry of blank_id's loop tries a name "_i" it has not tried before |
| RedlandWorld.World.constructor | trunk/redlandmm/src/World.cpp:36-49 | a new world has only the rdf prefix, so "rdf:type" expands into the RDF namespace, counts blank ids from 0 and has handed out no name |
| RedlandWorld.World.AddPrefix | trunk/redlandmm/src/World.cpp:59-63 | add_prefix registers the prefix, replacing any namespace it had |
| RedlandWorld.World.NextBlankId | trunk/redlandmm/redlandmm/World.hpp:60 | the counter's value is used and the counter moves on |
| RedlandWorld.World.BlankId | trunk/redlandmm/src/World.cpp:91-112 | "" or "b" give "b" followed by the counter, which moves on; any other base is taken as it is unless already handed out, and the counter stays |
| RedlandWorld.World.FreeName | trunk/redlandmm/src/World.cpp:96-102 | the search returns a name not handed out: the base when it is free, else some "_i" with i >= 2 |
| IngenSerializer.ExpandUriCases | ingen/src/libs/client/Serializer.cpp:101-118 | expand_uri expands "p:rest" for a registered p; with no matching prefix it returns "" exactly for strings with neither ':' nor '/', and the string itself otherwise |
| IngenSerializer.NoColonKeptIffSlash | ingen/src/libs/client/Serializer.cpp:101-118 | a string without ':' survives expansion exactly when it holds a '/' |
| IngenSerializer.ExpandUri | ingen/src/libs/client/Serializer.cpp:101-118 | expand_uri; ExpandUriCases and NoColonKeptIffSlash state what it returns |
| IngenSerializer.SerializerPrefixesExpand | ingen/src/libs/client/Serializer.cpp:49-61 | the constructor registers exactly rdf, ingen and ingenuity, and each expands to its namespace although "ingen" is a prefix of "ingenuity" |
| IngenSerializer.MetadataStatements | ingen/src/libs/client/Serializer.cpp:303-310 | the metadata loop adds at most one statement per entry |
| IngenSerializer.MetadataStatementsMembers | ingen/src/libs/client/Serializer.cpp:303-310 | a statement is added exactly for an entry whose key expands to something other than "", with the expansion as predicate |
| IngenSerializer.AddMetadata | ingen/src/libs/client/Serializer.cpp:325-332 | the metadata loop adds exactly the metadata statements, in entry order |
| RedlandDelta.AddAll | trunk/redlandmm/src/Model.cpp:277-281 | librdf_model_add_statement in turn keeps what was there and adds only new statements |
| RedlandDelta.AddAllMembers | trunk/redlandmm/src/Model.cpp:277-281 | afterwards the model holds exactly what it held and what was added |
| RedlandDelta.Put | trunk/redlandmm/src/Model.cpp:232-250 | the statements add_statement adds: none exactly when the object is NULL, and otherwise only the triple |
| RedlandDelta.AddAllAppend | trunk/redlandmm/src/Model.cpp:277-281 | adding two lists in turn is adding their concatenation |
| RedlandDelta.AddAllDistinct | trunk/redlandmm/src/Model.cpp:277-281 | the model's statements stay free of duplicates |
| RedlandDelta.Missing | trunk/redlandmm/redlandmm/Delta.hpp:53-59 | the statements of one model that the other lacks, and none when the other holds them all |
| RedlandDelta.Model.constructor | trunk/redlandmm/src/Model.cpp:38-48 | a new model is empty with base URI "." |
| RedlandDelta.Model.SetBaseUri | trunk/redlandmm/src/Model.cpp:126-137 | "" leaves the base alone; any other URI, which must hold the ':' the code asserts, becomes the base, prefix-expanded as a resource node is |
| RedlandDelta.Model.AddStatement | trunk/redlandmm/src/Model.cpp:231-250 | add_statement skips a NULL object and adds the triple otherwise |
| RedlandDelta.Model.AddStatementId | trunk/redlandmm/src/Model.cpp:253-273 | the predicate is the expansion of its prefixed name |
| RedlandDelta.Model.AddTriple | trunk/redlandmm/src/Model.cpp:276-281 | add_statement(statement) adds the statement |
| RedlandDelta.AddMissing | trunk/redlandmm/redlandmm/Delta.hpp:53-67 | the constructor's loop puts into the target exactly the statements of one model the other lacks |
| RedlandDelta.DeltaSummary | trunk/redlandmm/redlandmm/Delta.hpp:45-68 | removals and additions share no statement, are empty when the models agree, and turn the first model into the second |
| RedlandDelta.NewChange | trunk/redlandmm/redlandmm/Delta.hpp:70-75 | the Change constructor fills the given side only |
| RedlandDelta.WithSide | trunk/redlandmm/redlandmm/Delta.hpp:103-105 | filling one side of a record keeps the rest |
| RedlandDelta.ExtendsTrans | trunk/redlandmm/redlandmm/Delta.hpp:91-139 | the change sets only grow, step after step |
| RedlandDelta.SubjectChange | trunk/redlandmm/redlandmm/Delta.hpp:100-110 | a resource subject's record is reused with its stand-in, gets a stand-in when it lacks one, or is created with a changeset node and a stand-in |
| RedlandDelta.StandIn | trunk/redlandmm/redlandmm/Delta.hpp:113-120 | a blank object never seen gets a record with a stand-in on this side; as written, one seen only on the other side yields a NULL stand-in |
| RedlandDelta.ResourceStep | trunk/redlandmm/redlandmm/Delta.hpp:100-130 | a statement with a resource subject only extends the change sets and, corrected, always succeeds |
| RedlandDelta.OtherStep | trunk/redlandmm/redlandmm/Delta.hpp:131-138 | a statement whose subject is no resource only extends the change sets and, corrected, always succeeds |
| RedlandDelta.Step | trunk/redlandmm/redlandmm/Delta.hpp:91-139 | one statement of serialise_changes only extends the change sets and, corrected, always succeeds |
| RedlandDelta.SerialiseStream | trunk/redlandmm/redlandmm/Delta.hpp:85-140 | a whole stream only extends the change sets and, corrected, always succeeds |
| RedlandDelta.SerialisedKept | trunk/redlandmm/redlandmm/Delta.hpp:91-139 | a statement once shown stays shown |
| RedlandDelta.StepSerialises | trunk/redlandmm/redlandmm/Delta.hpp:91-139 | each step shows its own statement |
| RedlandDelta.EveryStatementSerialised | trunk/redlandmm/redlandmm/Delta.hpp:85-140 | every statement of the stream shows in the output under its subject's one record or stand-in |
| RedlandDelta.SerialisedIn | trunk/redlandmm/redlandmm/Delta.hpp:91-139 | statements shown stay shown with more statements in front |
| RedlandDelta.Serialised | trunk/redlandmm/redlandmm/Delta.hpp:91-139 | what serialise_changes writes for one statement; EveryStatementSerialised states that every statement is shown |
| RedlandDelta.SerialiseOne | trunk/redlandmm/redlandmm/Delta.hpp:92-138 | one pass of the loop adds exactly the step's statements to the model |
| RedlandDelta.SerialiseResource | trunk/redlandmm/redlandmm/Delta.hpp:100-130 | the resource branch adds exactly its step's statements |
| RedlandDelta.SerialiseChanges | trunk/redlandmm/redlandmm/Delta.hpp:85-140 | serialise_changes adds exactly the stream's statements and extends the change sets |
| RedlandDelta.StepAdded | trunk/redlandmm/redlandmm/Delta.hpp:91-139 | the model after one more step holds what it held plus that step's statements |
| RedlandDelta.Delta.constructor | trunk/redlandmm/redlandmm/Delta.hpp:45-68 | removals hold exactly the statements of from that to lacks, additions exactly those of to that from lacks |
| RedlandDelta.Delta.Serialise | trunk/redlandmm/redlandmm/Delta.hpp:142-156 | corrected, as the Delta.hpp:113-120 Findings row records: serialise registers "cs", then writes the additions and then the removals as changesets with one set of records |
| RedlandDelta.AddedBlankRecord | trunk/redlandmm/redlandmm/Delta.hpp:113-118 | after the additions pass a blank object has an addition stand-in and no removal one |
| RedlandDelta.BlankOnBothSidesAsWritten | trunk/redlandmm/redlandmm/Delta.hpp:113-120 | as written, the removals pass reaches a NULL stand-in for a blank object the additions pass recorded |
| RedlandDelta.BlankOnBothSidesFixed | trunk/redlandmm/redlandmm/Delta.hpp:113-120 | corrected, the removals pass gives the blank its own stand-in and both passes show every statement |
| RedlandDelta.ChangesetPredicates | trunk/redlandmm/redlandmm/Delta.hpp:147 | with "cs" registered, cs:addition, cs:removal and cs:subjectOfChange expand into the changeset namespace |
| SpecgenText.AfterLast | trunk/lv2specgen/lv2specgen.py:403 | split(c)[-1] is the suffix after the last c, free of c, and all of s when c does not occur |
| SpecgenText.ShortName | trunk/lv2specgen/lv2specgen.py:401-405 | getShortName is the suffix after the last '#' when there is one, else after the last '/', else the whole URI |
| SpecgenText.DeleteChar | trunk/lv2specgen/lv2specgen.py:464 | replace(" ", "") leaves no space and changes nothing in a string without one |
| SpecgenText.AnchorCases | trunk/lv2specgen/lv2specgen.py:408-412 | getAnchor of an in-namespace term is its local part with no '/' left, equal to that part when it has none; outside the namespace it is the short name |
| SpecgenText.Anchor | trunk/lv2specgen/lv2specgen.py:408-412 | getAnchor; AnchorCases states what it returns |
| SpecgenText.LastSeparator | trunk/lv2specgen/lv2specgen.py:94 | the greedy group of niceName's pattern ends on the last '/' or '#', after which none follows |
| SpecgenText.NiceNameCases | trunk/lv2specgen/lv2specgen.py:93-101 | a namespace ending in '/' or '#' followed by a non-empty local name renders as "prefix:local" when registered and as itself otherwise; a URI with no separator, or ending in one, does not match the pattern |
| SpecgenText.NiceName | trunk/lv2specgen/lv2specgen.py:93-101 | niceName; LastSeparator and NiceNameCases state what it returns |
| SpecgenText.NormaliseNs | trunk/lv2specgen/lv2specgen.py:582-584 | the namespace is the spec URL, with '#' added exactly when it ends in neither '/' nor '#'; an empty URL fails on url[-1] |
| SpecgenText.NormaliseNsIdempotent | trunk/lv2specgen/lv2specgen.py:582-584 | normalising a normalised namespace changes nothing |
| SpecgenText.RemoveAll | trunk/lv2specgen/lv2specgen.py:115-117 | return_name's replace never makes a name longer |
| SpecgenText.RemoveAllOfNsTerm | trunk/lv2specgen/lv2specgen.py:115-117 | return_name of namespace + local is local when the namespace does not occur in local |
| SpecgenText.AfterFirst | trunk/lv2specgen/lv2specgen.py:361 | the text after the first c: the character before it is c and no earlier c exists |
| SpecgenText.BeforeFirst | trunk/lv2specgen/lv2specgen.py:361 | split(c)[0] is the prefix before the first c, free of c, followed by c unless it is all of s |
| SpecgenText.LocalPart | trunk/lv2specgen/lv2specgen.py:410 | t[len(ns):] is what follows the namespace: ns + LocalPart == t |
| SpecgenText.SplitLocalOfHashNs | trunk/lv2specgen/lv2specgen.py:359-361 | for a namespace whose only '#' ends it, t.split('#')[1] is the term's local part when that has no '#' |
| SpecgenText.SplitLocal | trunk/lv2specgen/lv2specgen.py:361 | t.split(ns[-1])[1] as docTerms and buildazlist write it; SplitLocalOfHashNs and HttpSecondFieldEmpty state what it gives |
| SpecgenText.UniqueMembers | trunk/lv2specgen/lv2specgen.py:480-484 | add's "append unless present" keeps the old entries in front, adds no duplicate, and holds exactly the old entries and the new candidates not excluded |
| SpecgenText.UniqueAppend | trunk/lv2specgen/lv2specgen.py:548-558 | appending the candidates of two loops in turn is appending their concatenation |
| SpecgenText.Insert | trunk/lv2specgen/lv2specgen.py:590-591 | inserting into a sorted list keeps it sorted and adds exactly the one string |
| SpecgenText.Sort | trunk/lv2specgen/lv2specgen.py:590-591 | sorted() returns the same strings, as a multiset, in std::string order |
| SpecgenText.SortSorted | trunk/lv2specgen/lv2specgen.py:590-591 | sorting a sorted list changes nothing, so the sort in buildazlist after sorted() changes nothing |
| SpecgenGraph.FindMembers | trunk/lv2specgen/lv2specgen.py:500-501 | find_statements yields exactly the model's statements that fit the pattern, and no more than the model holds |
| SpecgenGraph.Added | trunk/lv2specgen/lv2specgen.py:480-484 | add gives the key a list on first use and appends the value unless already there, keeping the old list in front |
| SpecgenGraph.AddedOthers | trunk/lv2specgen/lv2specgen.py:480-484 | add leaves every other key as it was and keeps every list free of duplicates |
| SpecgenGraph.AddedAll | trunk/lv2specgen/lv2specgen.py:504-508 | a run of adds keeps every list free of duplicates |
| SpecgenGraph.AddedAllAppend | trunk/lv2specgen/lv2specgen.py:504-508 | two runs of adds in turn are one run over their concatenation |
| SpecgenGraph.AddedAllKeys | trunk/lv2specgen/lv2specgen.py:504-508 | after a run of adds a key is present exactly when it was or some pair names it |
| SpecgenGraph.AddedAllValues | trunk/lv2specgen/lv2specgen.py:504-508 | after a run of adds a key's list holds exactly its old entries and the values paired with it |
| SpecgenGraph.AddedAllKeepsOld | trunk/lv2specgen/lv2specgen.py:504-508 | a run of adds keeps a key's old entries in front, and a key no pair names keeps its list |
| SpecgenGraph.Index.constructor | trunk/lv2specgen/lv2specgen.py:60-61 | classranges and classdomains start as empty dicts |
| SpecgenGraph.Index.Add | trunk/lv2specgen/lv2specgen.py:480-484 | add updates the dict as Added says |
| SpecgenGraph.ParseCollection | trunk/lv2specgen/lv2specgen.py:216-241 | the loop returns what the walk over the collection's cells gives: the URIs read, a failure, or the fuel run out |
| SpecgenGraph.UriTexts | trunk/lv2specgen/lv2specgen.py:235 | the URI text of each term, position by position |
| SpecgenGraph.WellFormedListParsed | trunk/lv2specgen/lv2specgen.py:229-241 | a well-formed collection is read as the URIs of its items, in order, given one unit of fuel per item |
| SpecgenGraph.CellWithoutRest | trunk/lv2specgen/lv2specgen.py:236-238 | a cell with rdf:first and no statement after it makes the loop fail on the missing next statement |
| SpecgenGraph.CyclicListUnbounded | trunk/lv2specgen/lv2specgen.py:232-239 | a list whose rdf:rest leads back to itself is walked for as long as there is fuel |
| SpecgenInfo.ClassStatementsMembers | trunk/lv2specgen/lv2specgen.py:497-500 | the class statements are exactly the model's statements typing a subject rdfs:Class or owl:Class |
| SpecgenInfo.PropertyStatementsMembers | trunk/lv2specgen/lv2specgen.py:516-519 | the property statements are exactly the model's statements typing a subject with one of the four property types |
| SpecgenInfo.IndexClass | trunk/lv2specgen/lv2specgen.py:501-508 | the inner loop adds to the index the class paired with each property that names it as range (or domain) and is not deprecated |
| SpecgenInfo.SpecInformation | trunk/lv2specgen/lv2specgen.py:487-525 | specInformation returns the class list and the property list and fills the range and domain indices from the class statements; rdfsPropertyInfo's later additions to the indices are not modelled |
| SpecgenInfo.ClassInformation | trunk/lv2specgen/lv2specgen.py:499-513 | the loop over class statements builds the class list and both indices |
| SpecgenInfo.PropertyInformation | trunk/lv2specgen/lv2specgen.py:518-523 | the loop over property statements builds the property list |
| SpecgenInfo.ClassNamesMembers | trunk/lv2specgen/lv2specgen.py:509-513 | a name is in the class list exactly when some non-blank class subject in the namespace has it |
| SpecgenInfo.ClassListExactlyOnce | trunk/lv2specgen/lv2specgen.py:496-513 | the class list holds, once each, the name of every non-blank subject of the namespace typed rdfs:Class or owl:Class, and nothing else |
| SpecgenInfo.PropertyNamesMembers | trunk/lv2specgen/lv2specgen.py:519-523 | a name is in the property list exactly when some property subject in the namespace has it |
| SpecgenInfo.NoneOutsideNs | trunk/lv2specgen/lv2specgen.py:520 | a blank subject's URI text "None" never lies in a namespace ending in '/' or '#' |
| SpecgenInfo.PropertyListExactlyOnce | trunk/lv2specgen/lv2specgen.py:515-523 | the property list holds, once each, the name of every resource of the namespace typed with one of the four property types, and nothing else |
| SpecgenInfo.PairsFromMembers | trunk/lv2specgen/lv2specgen.py:501-504 | the pairs of one class are the class with each non-deprecated property naming it, for a non-blank class |
| SpecgenInfo.IndexPairsMembers | trunk/lv2specgen/lv2specgen.py:499-508 | the pairs of all class statements are exactly those of each class statement's subject |
| SpecgenInfo.SpecIndex | trunk/lv2specgen/lv2specgen.py:499-508 | the indices filled from empty have no duplicates, and map a class to a property exactly when the class is a non-blank class subject and the property names it as range (or domain) without being owl:DeprecatedProperty |
| SpecgenInfo.SubjectTexts | trunk/lv2specgen/lv2specgen.py:550 | the URI text of each statement's subject, position by position |
| SpecgenInfo.GetInstances | trunk/lv2specgen/lv2specgen.py:542-559 | getInstances, corrected to leave listed properties out of the defined resources, returns the instance list Instances defines |
| SpecgenInfo.AddTyped | trunk/lv2specgen/lv2specgen.py:549-552 | the inner loop appends each typed subject unless already listed |
| SpecgenInfo.StrippedSubjectsMembers | trunk/lv2specgen/lv2specgen.py:553-556 | the defined resources are the subjects of the isDefinedBy statements, each with the namespace stripped |
| SpecgenInfo.InstancesExactlyOnce | trunk/lv2specgen/lv2specgen.py:542-559 | the instances are listed once each: the subjects typed with a listed class, then the defined resources that are neither listed classes nor listed properties |
| SpecgenInfo.PropertyListedAsInstance | trunk/lv2specgen/lv2specgen.py:557 | as written, a property the ontology defines is listed as an instance; corrected, it is not |
| SpecgenInfo.Instances | trunk/lv2specgen/lv2specgen.py:542-559 | corrected, as the lv2specgen.py:557 Findings row records: the instances; InstancesExactlyOnce states what they are |
| SpecgenInfo.InstancesAsWritten | trunk/lv2specgen/lv2specgen.py:542-559 | getInstances as written; PropertyListedAsInstance states how it differs |
| SpecgenHtml.TermLink | trunk/lv2specgen/lv2specgen.py:244-249 | getTermLink yields a link exactly when niceName renders the URI |
| SpecgenHtml.TermLinkToTerm | trunk/lv2specgen/lv2specgen.py:244-247 | a term of the registered namespace links to "#term_" + its local name under the text "prefix:local" |
| SpecgenHtml.DdLinksRender | trunk/lv2specgen/lv2specgen.py:274-275 | the "<dd>" items can be written exactly when niceName renders every URI |
| SpecgenHtml.DdLinksFail | trunk/lv2specgen/lv2specgen.py:274-275 | one URI without a link spoils the whole list |
| SpecgenHtml.DdList | trunk/lv2specgen/lv2specgen.py:281-282 | the loop writes the "<dd>" items DdLinks defines |
| SpecgenHtml.NonBlankObjectsMembers | trunk/lv2specgen/lv2specgen.py:269-271 | the collected URIs are exactly the objects of the sub-class statements that are not blank |
| SpecgenHtml.SuperclassesOnce | trunk/lv2specgen/lv2specgen.py:268-273 | each non-blank superclass the model states is listed once, and nothing else is |
| SpecgenHtml.CollectSuperclasses | trunk/lv2specgen/lv2specgen.py:268-273 | the loop collects exactly those superclasses, first-seen order |
| SpecgenHtml.TitledEmpty | trunk/lv2specgen/lv2specgen.py:279-283 | a titled section is empty exactly when it is absent |
| SpecgenHtml.ClassInfoEmpty | trunk/lv2specgen/lv2specgen.py:252-293 | rdfsClassInfo is empty exactly when the class has no sub-class statement and neither index lists anything for it |
| SpecgenHtml.ClassInfoRenders | trunk/lv2specgen/lv2specgen.py:252-293 | rdfsClassInfo can be written exactly when niceName renders every superclass and every indexed property |
| SpecgenHtml.ClassInfo | trunk/lv2specgen/lv2specgen.py:252-293 | the class information rdfsClassInfo writes; ClassInfoEmpty, ClassInfoRenders, SubClassSection and TitledList state its properties |
| SpecgenHtml.RdfsClassInfo | trunk/lv2specgen/lv2specgen.py:252-293 | the method writes the class information ClassInfo defines, reading the two indices |
| SpecgenHtml.SubClassSection | trunk/lv2specgen/lv2specgen.py:265-275 | the sub-class-of title and items appear exactly when the class has an rdfs:subClassOf statement |
| SpecgenHtml.TitledList | trunk/lv2specgen/lv2specgen.py:278-283 | a domain or range section appears exactly when some property is indexed for the class |
| SpecgenHtml.FirstLiteral | trunk/lv2specgen/lv2specgen.py:120-132 | a non-empty label or comment is the literal of a statement about the term, and a term with no such statement gets "" |
| SpecgenHtml.HeadingMatchesAnchor | trunk/lv2specgen/lv2specgen.py:358-370 | corrected, a term's div is named as getAnchor names the term, for namespace terms, http URIs and bare names |
| SpecgenHtml.SlashNamespaceNamedEmpty | trunk/lv2specgen/lv2specgen.py:361 | as written, a '/' namespace names the div of ns + "X" ""; corrected, it is named "X", as getTermLink and the instance index link it |
| SpecgenHtml.HttpSecondFieldEmpty | trunk/lv2specgen/lv2specgen.py:361 | splitting an http URI on '/' gives "" as the second field |
| SpecgenHtml.HeadingAsWritten | trunk/lv2specgen/lv2specgen.py:359-370 | the div name and heading of a term as written, with t.split(ns[-1])[1]; SlashNamespaceNamedEmpty states what it gives |
| SpecgenHtml.HeadingOf | trunk/lv2specgen/lv2specgen.py:359-370 | corrected: the div name and heading of a term, with the namespace-relative part; HeadingMatchesAnchor states that it matches getAnchor |
| SpecgenHtml.TermDiv | trunk/lv2specgen/lv2specgen.py:371-396 | the div docTerms writes for one term; TermDivOpens and NonEmptyBlock state its parts |
| SpecgenHtml.NonEmptyBlock | trunk/lv2specgen/lv2specgen.py:382-393 | the comment paragraph and the definition list are each written exactly when their text is not empty, and then hold that text between their tags |
| SpecgenHtml.TermDivOpens | trunk/lv2specgen/lv2specgen.py:377 | every div docTerms writes opens with the id "term_" + the term's name |
| SpecgenHtml.TermDivsRender | trunk/lv2specgen/lv2specgen.py:358-396 | the section can be written exactly when every listed term's div can |
| SpecgenHtml.TermDivsFail | trunk/lv2specgen/lv2specgen.py:358-396 | one div that cannot be written spoils the whole section |
| SpecgenHtml.RenderTerm | trunk/lv2specgen/lv2specgen.py:359-396 | corrected, as the lv2specgen.py:361 Findings row records: one pass of docTerms writes the div TermDiv defines |
| SpecgenHtml.DocTerms | trunk/lv2specgen/lv2specgen.py:350-398 | corrected, as the lv2specgen.py:361 Findings row records: docTerms writes the divs of the listed terms in order |
| SpecgenHtml.AzNameMatchesHeading | trunk/lv2specgen/lv2specgen.py:425-437 | corrected, as the lv2specgen.py:427 Findings row records: the index link of a class or property reaches its div, for a bare name and for a namespace URI whose rest has no '/' |
| SpecgenHtml.SlashNamespaceIndexedEmpty | trunk/lv2specgen/lv2specgen.py:425-437 | as written, with an http namespace ending in '/', every class and property is named "" in the index and linked to "#term_"; corrected, ns + "X" is named "X" |
| SpecgenHtml.AzNameAsWritten | trunk/lv2specgen/lv2specgen.py:426-427 | buildazlist's name for a class or property as written, c.split(ns[-1])[1]; SlashNamespaceIndexedEmpty states what it gives |
| SpecgenHtml.AzName | trunk/lv2specgen/lv2specgen.py:425-437 | corrected: the namespace-relative part of an in-namespace class or property; AzNameMatchesHeading states that its link reaches the div |
| SpecgenHtml.AzList | trunk/lv2specgen/lv2specgen.py:415-449 | the index over sorted lists, with the corrected names; AzListEmpty and BuildAzList state its properties |
| SpecgenHtml.AzListEmpty | trunk/lv2specgen/lv2specgen.py:415-449 | the index is an empty box exactly when there is nothing to list |
| SpecgenHtml.SectionAppended | trunk/lv2specgen/lv2specgen.py:423-429 | appending a section's title, links and closing tag piece by piece writes the section |
| SpecgenHtml.AppendAzLinks | trunk/lv2specgen/lv2specgen.py:425-428 | corrected, as the lv2specgen.py:427 Findings row records: the loop appends one link per class or property name, named by its namespace-relative part |
| SpecgenHtml.AppendInstanceLinks | trunk/lv2specgen/lv2specgen.py:442-445 | the loop appends one link per instance, to its anchor under its short name |
| SpecgenHtml.BuildAzList | trunk/lv2specgen/lv2specgen.py:415-449 | buildazlist sorts both lists in place, as a permutation, and writes the index over them, with the corrected names of the lv2specgen.py:427 Findings row |
| SpecgenHtml.AppendInstanceSection | trunk/lv2specgen/lv2specgen.py:440-446 | nothing is written when no instance list is given or it is empty, else the title and the links |
| SpecgenHtml.AppendSortedSection | trunk/lv2specgen/lv2specgen.py:422-429 | nothing is written for an empty list, else the title and the links of the list, sorted first |
| SpecgenHtml.SimpleAnchorMatchesHeading | trunk/lv2specgen/lv2specgen.py:464 | the anchor of a bare name without spaces reaches its div |
| SpecgenHtml.AppendSimpleItems | trunk/lv2specgen/lv2specgen.py:463-464 | the loop appends one list item per name |
| SpecgenHtml.BuildSimpleList | trunk/lv2specgen/lv2specgen.py:452-477 | build_simple_list sorts both lists in place, as a permutation, ignores the instances, and writes the list over them |
| SpecgenHtml.SimpleList | trunk/lv2specgen/lv2specgen.py:452-477 | build_simple_list over sorted lists; BuildSimpleList and SimpleAnchorMatchesHeading state its properties |

## Left out

- Foreign libraries (librdf, raptor, libusb, JACK, pkg-config and the waf configuration checks) are not modelled. A librdf model is the sequence of statements its stream yields. A foreign check or lookup is a parameter, or an oracle recorded by the call it receives.
- I/O is left out: files, Turtle and HTML written to disk, stderr and stdout messages, urllib reads, the USB transfer itself.
- Threads and locks are left out: Glib mutexes, the Launchpad driver thread and its callbacks.
- Floating-point arithmetic beyond comparison is left out. Timestamps and times are exact Dafny reals, so their rounding is not modelled, and a float atom is its 32-bit pattern.
- EvoralNote.Note.constructor: the default arguments of Note.hpp:34 (channel 0, time 0, length 0, note 0, velocity 0x40) are not modelled, since Dafny has no default parameters; a caller passes every argument.
- IngenClashAvoider.ClashAvoider.constructor: ClashAvoider.hpp is not part of this model. The constructor is taken to store its arguments and start with empty maps. store, also_avoid, Path::is_path and child_name_offset are parameters.
- IngenClashAvoider.ClashAvoider.MapPathRenames: offsets are unbounded naturals, so the 32-bit wrap of the unsigned offset counter is not modelled.
- MachinaMachine.Machine.Run: each rand() call is the parameter function applied to the draw count. The loop gets a bound on its passes (the fuel of RunLoop and RunOf) and returns None when that bound runs out; the source loops for as long as nodes keep exiting before the end of the slice, which need not end when nodes of zero duration enter one another at the same time.
- MachinaMachine.Machine.Run: beats and ticks are taken to be the same unit, so ticks_to_beats and beats_to_ticks are identities. The value returned is the exact real difference; its truncation to whole ticks and to uint32_t is not modelled.
- Autowaf.ConfigContext.CheckPkgTrunk: takes mandatory as a plain bool. trunk/autowaf.py:110 reads args['mandatory'] with no default, so a call that omits it and whose package is not found raises KeyError there; that failure is not modelled.
- RdfRead.LiteralValue: a literal's datatype is always a URI string here. A plain literal has no datatype in Raptor, and rdf-read.cpp:288 then hands the null URI to raptor_uri_as_string and strcmp, which is undefined behaviour (in practice a crash); the model instead reads such a literal as a string atom, the branch a plain literal would evidently take.
- RdfRead.BodySize: the size of a string atom is an unbounded natural; the wrap of the 16-bit size field for a literal of 65531 bytes or more is not modelled.
- RdfRead.StringAllocation: the byte count is an unbounded natural; its wrap for a very long literal is not modelled.
- IngenMidiBuffer.MidiBuffer.Join: the other buffer must be reading its own block. join takes the other's local block together with its position, which is an offset into a third block when the other is itself joined; that offset need not be a record boundary, and records rather than raw bytes are modelled.
- IngenClashAvoider.ClashAvoider.Move, IngenClashAvoider.ClashAvoider.Connect, IngenClashAvoider.ClashAvoider.Disconnect: the two map_path calls are taken left argument first. C++ leaves the order of evaluation of arguments unspecified, and it shows in the renames the first call records for the second.
- SpecgenInfo.SpecInformation: rdfsPropertyInfo also adds owl:unionOf members to the range and domain indices; those additions happen after the class divs are written and are not modelled, so each class's in-domain-of and in-range-of lists are those of the class statements only.
- SpecgenHtml.RdfsClassInfo: reads the range and domain indices as SpecInformation fills them; rdfsPropertyInfo's additions are not modelled.
- RedlandDelta: statements and nodes are compared by value; the source keys ChangeSets by librdf_node pointers, so two distinct nodes with the same value are one node here.
- SpecgenHtml.AzName, SpecgenHtml.AppendAzLinks, SpecgenHtml.BuildAzList: the index uses the corrected name of the lv2specgen.py:427 Findings row; AzNameAsWritten is the name as written.
- SpecgenHtml.RenderTerm, SpecgenHtml.DocTerms: the divs use the corrected name of the lv2specgen.py:361 Findings row; HeadingAsWritten is the name as written.
- RdfRead.RdfModel.Emit: head is moved past the Model header as the rdf-read.cpp:382 Findings row corrects it; SkipModelHeaderAsWritten is the code as written.
- EvoralNote.Note.constructor, EvoralNote.Note.SetLength: times are exact reals, so the end time is exactly time plus length; the source asserts this only up to musical_time_equal because doubles round.
- MachinaMachine.Machine: the random number rand()/RAND_MAX that picks an edge is computed as an exact real, so floating-point division and rounding are not modelled.
- IngenMidiBuffer: MidiBuffer.hpp is not part of this model. reset, rewind, clear and this_nframes are taken to do what their names and uses say.
- IngenMidiBuffer.MidiBuffer.Merge: the target and the sources must be distinct buffers, so aliasing is not modelled. merge's assertion on the combined size is not modelled, because Buffer::size() is in a header that is not part of this model.
- IngenMidiBuffer.MidiBuffer.Copy: the source must be a distinct buffer; aliasing is not modelled.
- MachinaUpdates: Raul's Atom.hpp is not part of this model. The type tags are taken in enumeration order (nil, int, float, bool, uri, string). Byte order is little-endian and size_t is 8 bytes.
- ParsePlugin: the sscanf conversion of an int or float literal is not modelled, only the classification and the size and type written.
- RdfRead: atom.h is not part of this model, so the 4-byte atom header, the 8-byte object header and padding to 8 bytes are assumptions. The following are also not modelled:
  - the raptor parser (statements arrive one by one);
  - uri_to_id (URIs arrive mapped);
  - the bytes written, beyond where head stands after the Model header;
  - the 32-bit wrap of next_id;
  - an inline blank that contains itself, whose size is None.
- EvoralEvent.Event.constructor: Event.cpp is not part of this model. With alloc, the constructor is taken to allocate size bytes and copy the given buffer into them. Without it, the event points at the given buffer.
- EvoralNote: MIDIEvent's byte accessors are not part of this model. They are read as the MIDI message's fields.
- RedlandWorld.World.BlankId: nothing in the code adds to _blank_ids, so the set stays as it started. The Node built around the name, and its assertion, are not modelled.
- RedlandDelta: librdf creates nodes itself, and those are numbered from a counter the caller supplies. Language tags and datatypes of literals are not modelled.
- IngenSerializer: the librdf serializer, file search, and saving and loading are not modelled, nor are add_atom_to_rdf's literal encodings. Only the statement each metadata entry yields is modelled.
- Launchpad: run, connect, disconnect and the libusb callbacks are not modelled. The signal callback is a log of the presses it received.
- Autowaf: build_version_files, run_tests, run_ldconfig, build_pc and build_dox are not modelled.
- SpecgenHtml: owlInfo, rdfsPropertyInfo, rdfsInstanceInfo and htmlDocInfo (which reads the per-term files) are parameters of the rendering context. get_status's value is read but never written into the page, so it is not modelled.
- Specgen: the following are not modelled:
  - specProperty and specAuthors;
  - getOntologyNS;
  - the template substitution and termlink's regular expression;
  - save;
  - the command line.
- SpecgenHtml.BuildAzList: the instance list is taken in the order given. The sort in specgen by lowercased short name, with Python 2's cmp, is not modelled.
- SpecgenText.NiceName: in Python's pattern, '.' does not match a newline and '$' also matches before a final newline. The model ignores both, so it is exact only for URIs without a newline.
- SpecgenInfo: a blank node's URI text is taken to be "None", which is what str() gives for a missing uri. Dicts are keyed by the URI's text.
- SpecgenGraph.ParseCollection: the walk gets one unit of fuel per list cell it enters, and OutOfFuel stands for the source's unbounded loop on a cyclic list.

## Findings

| source | as written | input that shows it | evidently intended | confidence | as-written member | corrected member |
|---|---|---|---|---|---|---|
| raul/raul/Path.h:185-198 | the loop that erases "(...)" spans keeps searching when a '(' has no ')' after it | pathify("a(b") | stop when no ')' follows | not executed | RaulPath.UnmatchedOpenHangs | RaulPath.ChopFixed |
| raul/raul/Path.h:166-169 | after erasing a space or '_' the index skips the character moved into its place, which is uppercased but never checked | pathify("a  b") gives "/a b" | every character checked | not executed | RaulPath.SkippedSpaceGivesInvalidPath | RaulPath.FirstPassFixed |
| raul/raul/Path.h:143-169 | the same skip lets a '/' through nameify | nameify("a /b") | no '/' in a name | not executed | RaulPath.SkippedSlashSurvivesNameify | RaulPath.FirstPassFixed |
| raul/raul/Path.h:115-137 | pathify never collapses "//" yet asserts the result is valid | pathify("a//b") gives "/a//b" | pathify always yields a valid path | not executed | RaulPath.DoubleSlashGivesInvalidPath | RaulPath.PathifyFixed |
| ingen/src/libs/engine/MidiBuffer.cpp:139-143 | copy steps the source before reading its first record | a source holding one record | the first record is copied | not executed | IngenMidiBuffer.CopyDropsFirstEvent | IngenMidiBuffer.CopyCandidatesFixed |
| ingen/src/libs/engine/MidiBuffer.cpp:264-267 | merge takes a 0.0 stamp as the end of a stream | a second record stamped 0.0 | only the end of the records ends a stream | not executed | IngenMidiBuffer.ZeroStampEndsStream | IngenMidiBuffer.MergeAll |
| trunk/machina/src/engine/Updates.cpp:40-43 | the FLOAT branch stores the value in ival and writes the uninitialised fval | any float atom | the float is written | not executed | MachinaUpdates.FloatReadsStale | MachinaUpdates.DecodeEncodeFixed |
| trunk/plugins/lolep.lv2/src/parse.cpp:128-136 | a lone '"' passes the quote test and its size len-2 wraps to 0xFFFFFFFF | the input "\"" | a quoted string needs two quotes | not executed | ParsePlugin.LoneQuoteWraps | ParsePlugin.FixedQuotedText |
| trunk/plugins/lolep.lv2/src/rdf-read.cpp:357-376 | if lv2_atom_pad_size pads to 8 bytes, the size count and the writer differ by 4 bytes per value (with 4-byte padding they agree, AlignmentDecidesAgreement) | one object with one int property (28 counted, 24 written, padding to 8) | write advances by what was counted | not executed; holds only if atoms are padded to 8 bytes, which atom.h (not part of this model) decides | RdfRead.OneIntModelRejected | RdfRead.RdfModel.Write |
| trunk/plugins/lolep.lv2/src/rdf-read.cpp:272-285 | the reference count is looked up under a blank-id tag but stored under a blank tag | a blank node referenced twice | the count reaches 2 | not executed | RdfRead.TwoReferencesCountOne | RdfRead.CountsReferences |
| trunk/plugins/lolep.lv2/src/rdf-read.cpp:107-115 | abbreviate moves the object of a blank that never occurs as a subject | a blank used only as an object | such a blank is skipped | not executed | RdfRead.ObjectOnlyBlankUnpresumed | RdfRead.AbbreviatedSplitsBlanks |
| trunk/plugins/lolep.lv2/src/rdf-read.cpp:310-317 | the allocation for a string literal is one byte short of the header, text and terminator copied into it | any string literal | the allocation holds what is copied | not executed | RdfRead.StringCopyOverruns | RdfRead.StringAllocationFixed |
| trunk/mda-lv2/lvz/gendata.cpp:63-71 | the camel-case test reads 'Z' <= next <= 'a' | symbolify("LikeThis") gives "likethis" | "like_this" | not executed | GenData.LikeThisAsWritten | GenData.LikeThisFixed |
| trunk/redlandmm/redlandmm/Delta.hpp:113-120 | the removals pass takes the stand-in of a blank object recorded by the additions pass, which is NULL on the removal side | a blank object in both additions and removals | a stand-in for each side | not executed | RedlandDelta.BlankOnBothSidesAsWritten | RedlandDelta.BlankOnBothSidesFixed |
| trunk/lv2specgen/lv2specgen.py:557 | getInstances never consults its properties argument | a property with rdfs:isDefinedBy the ontology | properties are not instances | not executed | SpecgenInfo.PropertyListedAsInstance | SpecgenInfo.InstancesExactlyOnce |
| trunk/lv2specgen/lv2specgen.py:361 | t.split(ns[-1])[1] for a namespace ending in '/' is the text between the first two '/' | "http://example.org/ns/X" in the namespace "http://example.org/ns/" | the div is named "X", as getTermLink and the instance index link it | not executed | SpecgenHtml.SlashNamespaceNamedEmpty | SpecgenHtml.HeadingMatchesAnchor |
| trunk/lv2specgen/lv2specgen.py:427 | buildazlist names a class or property c.split(ns[-1])[1], which for an http namespace ending in '/' is "" | "http://example.org/ns/X" in the namespace "http://example.org/ns/" | the index entry is named "X" and links to "#term_X" | not executed | SpecgenHtml.SlashNamespaceIndexedEmpty | SpecgenHtml.AzNameMatchesHeading |
| trunk/plugins/lolep.lv2/src/rdf-read.cpp:382 | *head += sizeof(LV2_Object) adds 8 to the header's first byte instead of moving head past the header | a document with two top-level objects | head moves past the Model header and the objects fill the rest | not executed | RdfRead.ModelHeaderOverwritten | RdfRead.ModelHeaderKept |

# Mocktail: verified models

Mocktail runs an Android game client on a Linux host.  This project models the parts of it
whose correctness is hardest to see from the code, and proves what they are for:

- **the looper over epoll** (`Looper`, `LooperRuns`, `LooperLaws`): file descriptors registered under
  generation tokens, changed by several threads, by callbacks, and by closes the looper never
  sees; the invariants hold over every interleaving;
- **the asset path cache** (`AssetCache`, `AssetLaws`): a cache that agrees with the plain ordered lookup;
- **the HostAbi deriver**: the packed relocation decoder (`Sleb128`, `Aps2`, `Aps2Laws`), init-array
  resolution (`InitArray`, `Elf`), constructor-replay ranges (`ConstructorRanges`) and their
  chaining (`DerivationChains`), the masked signature search (`SignatureSearch`) and
  instruction comparison up to register renaming (`RegisterRenaming`, `InstructionLaws`);
- **the matching solver** (`Scoring`, `Solver`): a partial bijection grown along the call graph
  and revised by scored matches;
- **the MediaCodec stub** (`Pixels`, `Codec`, `CodecLaws`, `MediaCodec`): output slot ownership, delivery
  order, end of stream, and the I420 copy, up to the pixel a client reads;
- **constructor bisection** (`CtorBisect`): binary search and a greedy quarantine against an
  oracle that depends only on the set of constructors run;
- **the AArch64 call-site scanner** (`CallSite`).

Where the source changes state in place, a class (`ALooper`, `Reader`, `Renames`, `Matcher`,
`AMediaCodec`, `AssetLookupCache`, `Bisector`) does the same step by step, and each of its
methods is proved equal to a function on values.  The main results are about those functions:
what every step keeps, and what therefore holds after every run.  A state machine is a
`State`, an `Action`, `Enabled` and `Apply`; `IsRun` and `After` are runs of any length.

The `Laws` modules say what the building blocks come to without naming them: the meaning of
event bits, flag numbers and register names, the places that are searched, what comes out for
what went in.

`Basics` holds the small shared vocabulary.  Integers are unbounded in Dafny, so 64-bit ranges
and wrap-around are written out.  Operating system, decoder and log answers are parameters, so
each theorem covers every way they may answer.

`dafny verify dfyconfig.toml` checks the whole project.

## Properties that do not hold as one might expect

- `Sleb128.PopEncoded`: a ten-byte number is not sign-extended, so the shortest form of a
  number is read back exactly when the number is in [-2^62, 2^64), and refused otherwise.
  `Aps2.DecodeInvertsEncode` carries the condition over to relocation lists.
- `AssetCache.CreationGoesUnseen`: a file created in an overlay after a root file was cached is
  not seen.  `AssetCache.AnswerIsPlainExactlyWhen` gives the exact condition over every run.
- `InstructionLaws.OverlapExamples`: the register family is meant to be the 64-bit register a
  name is part of, but the byte registers of the legacy ones, such as al, are left on their
  own.  `InstructionLaws.FamilyExactly` says which names share a family.
- `CtorBisect.StuckScan`: a prefix scan need not end.  By `CtorBisect.ScanEndsExactlyUnless` it
  ends exactly unless the prefix at its start is bad both with and without the next
  constructor and every log from then on tells that constructor's offset.
- `Codec.RestartWithoutFlush`: started again after a drain without a flush, the codec emits a
  second end of stream while it is not draining.  `Codec.RestartEndsAgain` says exactly when,
  and `Codec.OneEndPerDrain` holds for clients that start only after configuring or flushing.

## Model

| member | source | states |
|---|---|---|
| `Looper.FreeTokenExists` | stubs/libandroid_stub.cc:786-798 | descriptors are 31-bit and have one registration each, so an unused 64-bit token always exists and the token loop ends |
| `LooperLaws.DrawIsFirst` | stubs/libandroid_stub.cc:786-798 | the drawn token is the first unregistered value of 1 to 2^64 - 1, counted round and round from the counter on |
| `Looper.ALooper.constructor` | stubs/libandroid_stub.cc:701-751 | a new looper, with only the wake entry in its kernel list, satisfies the invariant |
| `Looper.ALooper.NextRegistrationTokenLocked` | stubs/libandroid_stub.cc:786-798 | returns the first unregistered nonzero token from the counter on, wrapping at 2^64 past zero, and leaves the counter behind it |
| `Looper.InstallTouchesOneEntry` | stubs/libandroid_stub.cc:948-959 | the add-or-modify request with its one retry either changes nothing or sets exactly the entry of this descriptor's file |
| `LooperLaws.InstallSucceedsExactlyWhen` | stubs/libandroid_stub.cc:948-955 | without failures of the kernel's own, the request succeeds exactly when the descriptor is open, however the tables and the kernel's list disagree |
| `Looper.ALooper.Register` | stubs/libandroid_stub.cc:923-977 | both maps move to the new registration, or are put back exactly when the kernel refuses |
| `Looper.ALooper.AddFd` | stubs/libandroid_stub.cc:910-977 | the call refines `AddingFd`: refused arguments change nothing, and the invariant is kept |
| `Looper.AddFdKeeps` | stubs/libandroid_stub.cc:910-977 | a registration keeps the maps inverse, tokens fresh and nonzero, and the kernel list in agreement, whatever the kernel answers |
| `Looper.FailedAddRollsBack` | stubs/libandroid_stub.cc:961-971 | a failed registration leaves both maps and the kernel list as they were; a successful one installs exactly the new registration under an unused token and touches no other descriptor |
| `LooperLaws.AddSucceedsExactlyWhen` | stubs/libandroid_stub.cc:910-977 | without failures of the kernel's own, a registration succeeds exactly when the descriptor is open and the arguments make sense; its fields are then those asked for |
| `LooperLaws.EventsRequested` | stubs/libandroid_stub.cc:770-775 | input and output bits are asked for as EPOLLIN and EPOLLOUT, all others ignored |
| `LooperLaws.EventsReported` | stubs/libandroid_stub.cc:777-784 | EPOLLIN, EPOLLOUT, EPOLLERR and EPOLLHUP are reported as input, output, error and hangup, all others ignored |
| `Looper.ALooper.RemoveFdLocked` | stubs/libandroid_stub.cc:812-834 | removes the descriptor if the expected token is its current one (or zero), keeps everything on a real kernel failure, and keeps the invariant |
| `Looper.RemoveFdLockedKeeps` | stubs/libandroid_stub.cc:812-834 | removal keeps the invariant for every expected token and kernel answer |
| `Looper.ALooper.RemoveFd` | stubs/libandroid_stub.cc:979-986 | negative descriptors are refused; otherwise whatever registration the descriptor has is removed |
| `LooperLaws.RemovalRemoves` | stubs/libandroid_stub.cc:812-834 | removing a registered descriptor fails only on a real kernel failure and then changes nothing; otherwise its registration and kernel entry are gone and all others stay |
| `LooperLaws.RemovedNeverDelivered` | stubs/libandroid_stub.cc:812-858 | in every run after a removal, a queued response of the removed registration is dropped, not returned |
| `Looper.ChangeDescriptorsKeeps` | stubs/libandroid_stub.cc:824-826 | closes, reopens and duplicates that the looper never sees keep the invariant |
| `Looper.ALooper.CollectResponses` | stubs/libandroid_stub.cc:1071-1088 | resolves a batch to responses: at ascending batch positions, exactly the events whose token is registered and not the wake token, with or without a callback, each with its table entry |
| `Looper.CollectInKernelOrder` | stubs/libandroid_stub.cc:1071-1088 | the same of the function the run theorems speak of |
| `Looper.InvokedExactlyWhen` | stubs/libandroid_stub.cc:1090-1097 | a callback is invoked exactly when some reported token is registered with a callback |
| `Looper.ALooper.RunCallbacks` | stubs/libandroid_stub.cc:1090-1102 | after the batch's callbacks, with whatever each adds, removes or closes, the registrations are those left by removing each one whose callback returned 0, if it is still the one invoked |
| `LooperLaws.ZeroEndsRegistration` | stubs/libandroid_stub.cc:1092-1101 | a callback's calls are made; its zero ends the registration it ran for unless the kernel fails, any other answer ends none |
| `Looper.ALooper.PerformCalls` | stubs/libandroid_stub.cc:1094-1096 | what a callback does to the looper before it returns refines the same additions and removals, and keeps the invariant |
| `Looper.ALooper.QueueIdents` | stubs/libandroid_stub.cc:1104-1108 | appends exactly the batch's responses without a callback, in order |
| `Looper.ALooper.RegistrationIsCurrent` | stubs/libandroid_stub.cc:800-810 | true exactly when the descriptor's current token is this registration's and it is registered |
| `Looper.ALooper.TakePendingIdent` | stubs/libandroid_stub.cc:842-858 | returns the first current response, having dropped exactly the stale ones ahead of it |
| `Looper.ALooper.PollRound` | stubs/libandroid_stub.cc:1053-1113 | a whole round behind `epoll_wait` is collect, dispatch, queue and take; a callback ran exactly when some reported token is registered with one, it was woken exactly when token 0 was reported; and the invariant is kept |
| `LooperRuns.StepKeeps` | stubs/libandroid_stub.cc:786-1122 | every step of every thread keeps the invariant: inverse maps, fresh tokens, kernel agreement, queue emptied before waiting, queued responses faithful and with distinct tokens |
| `LooperRuns.RunKeeps` | stubs/libandroid_stub.cc:786-1122 | so does every run |
| `LooperRuns.RegistrationsStayConsistent` | stubs/libandroid_stub.cc:786-986 | in every interleaving the maps are mutual inverses, token 0 is never registered, and a kernel entry with a registered token carries its descriptor's current token |
| `LooperRuns.QueueDiscipline` | stubs/libandroid_stub.cc:1009-1041 | the pending queue is empty at every `epoll_wait`, never holds one token twice, and what was taken plus what it holds is what was queued, in order |
| `LooperRuns.TakenResponseIsCurrent` | stubs/libandroid_stub.cc:842-858 | in every reachable state the front response is returned exactly when its token is still registered, and then it carries the registration current at that check |
| `LooperRuns.RetiredForever` | stubs/libandroid_stub.cc:786-798 | a token that left the table never comes back in any run, so a late event cannot be taken for a later registration |
| `LooperRuns.DroppedBecauseRetired` | stubs/libandroid_stub.cc:844-850 | over any run from a new looper, no dropped response's token is still registered: responses are dropped only for removed or replaced registrations |
| `LooperRuns.CallbackRemovesOnlyItself` | stubs/libandroid_stub.cc:1097-1101 | a callback returning 0 removes its own registration and never a newer one of the same descriptor or any other |
| `LooperRuns.IdentsInKernelOrder` | stubs/libandroid_stub.cc:1071-1108 | a batch queues, in kernel order, exactly the events whose token is registered without a callback |
| `LooperRuns.UninterruptedTake` | stubs/libandroid_stub.cc:842-858 | single turns of the loop, undisturbed, add up to the whole `TakePendingIdent` |
| `LooperRuns.RoundIsARun` | stubs/libandroid_stub.cc:1053-1113 | the in-place round is the run of these steps: collect, for each response in order its callback, the callback's calls and its return, queue, and turns of taking; its final phase says whether `pollOnce` returns an ident, a callback, a wake, or waits again |
| `AssetCache.KeyInjective` | stubs/libandroid_stub.cc:134-145 | keys of different settings or names never collide when the directories hold no NUL |
| `AssetCache.AssetLookupCache.CacheResolvedAsset` | stubs/libandroid_stub.cc:147-158 | stores the asset, dropping one other entry only when a new key finds the cache full |
| `AssetCache.StoredSize` | stubs/libandroid_stub.cc:132-158 | storing keeps the cache within 5120 entries |
| `AssetCache.AssetLookupCache.ResolveAssetPath` | stubs/libandroid_stub.cc:207-281 | the cached lookup in place equals `Lookup`; null and unsafe names resolve to nothing and leave the cache alone |
| `AssetLaws.RefusedExactlyWhen` | stubs/libandroid_stub.cc:92-100 | a name is refused exactly when it is empty, a single dot, has a `..` part, or has an empty part ahead of its last |
| `AssetLaws.CandidatesInOrder` | stubs/libandroid_stub.cc:243-278 | the candidates are six places of one directory after another, in the written order |
| `AssetLaws.DirectoriesInOrder` | stubs/libandroid_stub.cc:247-250 | overlay, font overlay, root; an overlay that is switched off is not searched |
| `AssetLaws.EnvironmentMeans` | stubs/libandroid_stub.cc:217-230 | the default directories, and what the variables change; a switch of 0 leaves only the root |
| `AssetLaws.UriPrefixes` | stubs/libandroid_stub.cc:78-90 | either URI prefix is taken off a name |
| `AssetLaws.DirectoryPrefixes` | stubs/libandroid_stub.cc:102-114 | either directory prefix is taken off a name |
| `AssetLaws.LookupRemembers` | stubs/libandroid_stub.cc:147-158 | a found asset is stored under its key and every other entry stays, but for the victim of a full cache; a failed lookup forgets only its key |
| `AssetCache.Search` | stubs/libandroid_stub.cc:247-278 | finds the first existing candidate of overlay, font overlay and root |
| `AssetCache.ExistingIsFirst` | stubs/libandroid_stub.cc:247-278 | an existing candidate is the plain answer exactly when none ahead of it exists |
| `AssetCache.LookupIsPlainExactlyWhen` | stubs/libandroid_stub.cc:232-280 | an undisturbed lookup equals the plain one exactly unless the cached file still exists and a candidate ahead of it exists by now |
| `AssetCache.AnswerIsPlainExactlyWhen` | stubs/libandroid_stub.cc:207-281 | in every run of concurrent lookups with evictions, setting changes, deletions and creations, an answer is the plain one for the files there were when it was decided exactly when no candidate ahead of it existed then; the cache keeps its bound |
| `AssetCache.LookupKeeps` | stubs/libandroid_stub.cc:207-281 | a lookup keeps every entry the first existing candidate of its key, and the bound |
| `AssetCache.DeletionKeeps` | stubs/libandroid_stub.cc:232-240 | deleting files keeps every entry valid |
| `AssetCache.CachedEqualsPlain` | stubs/libandroid_stub.cc:207-281 | in every interleaving of the steps of any number of lookups with evictions, setting changes and deletions, each answer is the plain lookup's path and overlay flag for the files there were when it was decided, and the cache is within its bound |
| `AssetCache.UndisturbedLookup` | stubs/libandroid_stub.cc:234-280 | the locked look, the file tests and the locked store of one lookup, with nothing in between, do what the lookup in place does |
| `AssetCache.CreationGoesUnseen` | stubs/libandroid_stub.cc:232-240 | a concrete created overlay file that the cache hides |
| `Sleb128.Reader.ReadGroups` | scripts/derive_roblox_host_abi_profile.py:184-197 | reads up to the first byte without continuation bit, ten at most, and moves the position behind it |
| `Sleb128.Reader.Pop` | scripts/derive_roblox_host_abi_profile.py:184-200 | pops exactly the next number of the stream, or refuses where there is none |
| `Sleb128.Reader.AtEnd` | scripts/derive_roblox_host_abi_profile.py:202-203 | true exactly when no number and no stray byte is left |
| `Sleb128.EncodedLength` | scripts/derive_roblox_host_abi_profile.py:184-200 | the shortest form of v takes at most k bytes exactly when v is in the signed 7k-bit range |
| `Sleb128.ScanEncoded` | scripts/derive_roblox_host_abi_profile.py:184-195 | reading a shortest form consumes exactly its bytes and finds its unsigned value and sign |
| `Sleb128.PopEncoded` | scripts/derive_roblox_host_abi_profile.py:184-200 | popping the shortest form of any integer, anywhere in a stream, gives it back exactly when it is in [-2^62, 2^64), and is refused otherwise |
| `Sleb128.StreamInverts` | scripts/derive_roblox_host_abi_profile.py:179-203 | popping an encoded list gives the list back and ends with the bytes, exactly when each number can be popped |
| `Sleb128.DigitsPop` | scripts/derive_roblox_host_abi_profile.py:184-200 | any bytes that end a number within ten, shortest form or not, pop as the value of their seven-bit digits, sign-extended below ten, or are refused outside [-2^63, 2^64) |
| `Sleb128.UnendedRefused` | scripts/derive_roblox_host_abi_profile.py:188-189 | bytes that do not end a number within ten, or before they run out, are refused |
| `Aps2Laws.EncodedExamples` | scripts/derive_roblox_host_abi_profile.py:184-200 | the shortest forms of eight small numbers and of 0x1000 and 0x2000, byte by byte |
| `Aps2.DecodeAps2Relocations` | scripts/derive_roblox_host_abi_profile.py:569-620 | the in-place decoder over the reader equals `Decode` on every byte string |
| `Aps2.DecodedListFits` | scripts/derive_roblox_host_abi_profile.py:575-620 | a successful decode has exactly the declared count, at most 4 Mi, and all fields in [0, 2^64) |
| `Aps2.DecodeInvertsEncode` | scripts/derive_roblox_host_abi_profile.py:569-620 | for every relocation list and every legal grouping by the four flags, decoding the packed form gives that list and consumes every byte exactly when the list has at most 4 Mi entries and all stream numbers are in [-2^62, 2^64); otherwise it is refused |
| `Aps2.DecodedComesFromGroups` | scripts/derive_roblox_host_abi_profile.py:569-620 | conversely, whatever is accepted is the number stream of a legal grouping of the result |
| `Aps2Laws.AcceptedGroupMeans` | scripts/derive_roblox_host_abi_profile.py:581-618 | on the raw numbers of an accepted group: bit 0 of the flag number makes all items share the header's info, bit 1 makes the header's stride constant, bits 3 and 2 give a shared addend, own addends or zero; otherwise each item has its own numbers, at stated places |
| `Aps2Laws.AcceptedStreamMeans` | scripts/derive_roblox_host_abi_profile.py:569-620 | an accepted stream is the magic bytes, the result's length, the start offset, and one such group after another to the end |
| `Aps2Laws.DecodedExample` | scripts/derive_roblox_host_abi_profile.py:569-620 | fourteen concrete bytes with flag number 9 and the relocation they stand for |
| `InitArray.InitArrayRelocations` | scripts/derive_roblox_host_abi_profile.py:542-566 | succeeds exactly when the relocations hitting the array are aligned, relative, to code, and cover each slot once; entry i is then the addend for slot i |
| `InitArray.Collect` | scripts/derive_roblox_host_abi_profile.py:548-562 | the dictionary holds exactly the hit slots with their addends, or the first inconsistency is refused |
| `InitArray.OrderIrrelevant` | scripts/derive_roblox_host_abi_profile.py:542-566 | neither the order of relocations nor unrelated ones change success or any entry |
| `InitArray.AlignedEntry` | scripts/derive_roblox_host_abi_profile.py:555-566 | in an 8-aligned array, entry k is the addend of the one relocation at its address |
| `InitArray.ResolvableExactly` | scripts/derive_roblox_host_abi_profile.py:548-565 | an 8-aligned array is resolvable exactly when its hits are aligned relative relocations to code and patch each slot's address once |
| `InitArray.HitsExactly` | scripts/derive_roblox_host_abi_profile.py:550-552 | the hits are the relocations inside the array, with their multiplicities |
| `InitArray.RelativeExactly` | scripts/derive_roblox_host_abi_profile.py:553-558 | a relative relocation is one whose info is 8 |
| `Elf.SegmentExactly` | scripts/derive_roblox_host_abi_profile.py:448-452 | a segment is returned exactly when it alone spans the bytes |
| `Elf.CodeExactly` | scripts/derive_roblox_host_abi_profile.py:454-462 | an address is code exactly when one segment alone spans it, with flags read and execute but not write, and holds it in its file data |
| `ConstructorRanges.LeadingWindow` | scripts/derive_roblox_host_abi_profile.py:2081-2088 | refused below seven constructors; otherwise the largest window up to six that leaves a later constructor |
| `ConstructorRanges.MatchOffsets` | scripts/derive_roblox_host_abi_profile.py:2127-2152 | succeeds exactly when every matched address is an entry and no two coincide; offsets are first positions and distinct |
| `ConstructorRanges.ValidatedRanges` | scripts/derive_roblox_host_abi_profile.py:753-777 | accepts exactly the sorted, disjoint, non-empty lists inside the array, unchanged |
| `DerivationChains.ValidExactly` | scripts/derive_roblox_host_abi_profile.py:753-777 | a list is valid exactly when it and its ranges are not empty, lie in the array, and every index of a range precedes all indices of later ones |
| `ConstructorRanges.WindowFlags` | scripts/derive_roblox_host_abi_profile.py:2445-2451 | flags exactly the unmapped slots and the mapped ones the reference replays |
| `ConstructorRanges.MergeRuns` | scripts/derive_roblox_host_abi_profile.py:2452-2468 | the ranges are separated and valid and contain exactly the flagged slots and everything later |
| `ConstructorRanges.RemappedConstructorRanges` | scripts/derive_roblox_host_abi_profile.py:2417-2468 | succeeds exactly when the reference fits and the candidate has a later constructor; index i is then in the result exactly when it is an unmapped window slot, the slot of a constructor the reference replays, or a later constructor |
| `DerivationChains.FitsExactly` | scripts/derive_roblox_host_abi_profile.py:2434-2444 | a fitting reference replays nothing ahead of the leading constructors and everything behind them, and a list whose ranges do not touch fits exactly then |
| `DerivationChains.SeparatedIsUnique` | scripts/derive_roblox_host_abi_profile.py:2452-2468 | separated lists that run the same indices are equal, so the result is canonical |
| `DerivationChains.ReindexedAnchors` | scripts/derive_roblox_host_abi_profile.py:2719-2734 | the derived anchors list the mapped slots, ascending, each once, with the address matched for it |
| `DerivationChains.DerivedProfileFits` | scripts/derive_roblox_host_abi_profile.py:2106-2130 | a derived profile with re-indexed anchors always passes the reference-side checks of another derivation: its ranges fit, its anchors lie in the leading window and hold the init-array's addresses |
| `DerivationChains.KeepsDecision` | scripts/derive_roblox_host_abi_profile.py:2417-2468 | each leading constructor runs in the candidate exactly when it ran in the reference |
| `DerivationChains.ComposedSlot` | scripts/derive_roblox_host_abi_profile.py:2417-2468 | chained and composed offsets put the same constructors on each slot, with the same decision |
| `DerivationChains.ChainedDerivation` | scripts/derive_roblox_host_abi_profile.py:2417-2468 | deriving A to B to C gives the very list that composing the offset maps gives |
| `SignatureSearch.LongestFixedAnchor` | scripts/derive_roblox_host_abi_profile.py:1025-1041 | returns the first longest unmasked run, and fails exactly when no run is long enough |
| `SignatureSearch.Find` | scripts/derive_roblox_host_abi_profile.py:1206-1207 | the first occurrence at or after the start that ends in time, or -1 if there is none |
| `SignatureSearch.NaiveIsExact` | scripts/derive_roblox_host_abi_profile.py:1204-1230 | the naive scan lists, ascending without repeats, exactly the offsets in `.text` where every unmasked byte agrees and the segment test holds |
| `SignatureSearch.AcceptsExactly` | scripts/derive_roblox_host_abi_profile.py:1210-1229 | an offset is accepted exactly when its bytes lie in the text section, agree wherever the mask is on, and lie in one segment alone that may be executed and not written |
| `SignatureSearch.AcceptedHasAnchor` | scripts/derive_roblox_host_abi_profile.py:1204-1216 | every accepted offset has the anchor at its place, so skipping between anchors loses nothing |
| `SignatureSearch.SearchByAnchor` | scripts/derive_roblox_host_abi_profile.py:1200-1230 | the anchor search returns exactly the naive scan's list |
| `SignatureSearch.FindSignature` | scripts/derive_roblox_host_abi_profile.py:1195-1238 | returns that list exactly when an anchor is long enough and there is one match (or several are allowed) |
| `RegisterRenaming.RecordsAreInverse` | scripts/derive_roblox_host_abi_profile.py:1126-1131 | the forward and backward dictionaries are mutual inverses and record a one-to-one renaming |
| `RegisterRenaming.AnotherPair` | scripts/derive_roblox_host_abi_profile.py:1126-1131 | another pair fits the renaming exactly when neither dictionary contradicts it |
| `RegisterRenaming.Renames.Accept` | scripts/derive_roblox_host_abi_profile.py:1124-1132 | the two `setdefault` calls succeed exactly when the pair extends the one-to-one renaming |
| `RegisterRenaming.Renames.RenamedShapesMatch` | scripts/derive_roblox_host_abi_profile.py:1101-1133 | succeeds exactly when mnemonics and operands agree up to registers and the registers extend the renaming |
| `RegisterRenaming.CompareShapes` | scripts/derive_roblox_host_abi_profile.py:1141-1163 | compares all instructions against one shared renaming |
| `RegisterRenaming.ValidateSemanticMatch` | scripts/derive_roblox_host_abi_profile.py:1136-1181 | succeeds exactly when all operands are supported, the shapes match, and the object sizes are consistent where they may change |
| `RegisterRenaming.MatchesReflexive` | scripts/derive_roblox_host_abi_profile.py:1101-1163 | the comparison is reflexive |
| `RegisterRenaming.MatchesSymmetric` | scripts/derive_roblox_host_abi_profile.py:1101-1163 | the comparison is symmetric |
| `RegisterRenaming.MatchesTransitive` | scripts/derive_roblox_host_abi_profile.py:1101-1163 | the comparison is transitive |
| `RegisterRenaming.MatchesMeansOneRenaming` | scripts/derive_roblox_host_abi_profile.py:1101-1163 | it succeeds exactly when one injective map of register families makes the shapes equal at all renamed indices together |
| `InstructionLaws.FamilyExactly` | scripts/derive_roblox_host_abi_profile.py:1091-1098 | two names share a family exactly when they are equal, xx, exx or rxx of one legacy register, or one numbered register with size suffixes |
| `InstructionLaws.OverlapExamples` | scripts/derive_roblox_host_abi_profile.py:1091-1098 | names told apart and names not; al counts as a register of its own |
| `InstructionLaws.AcceptedExactlyWhen` | scripts/derive_roblox_host_abi_profile.py:1044-1163 | the comparison accepts exactly the sequences whose mnemonics and operands are alike one by one, and whose registers at renamed places overlap in the candidate exactly where they do in the reference |
| `InstructionLaws.OverlapIsRefused` | scripts/derive_roblox_host_abi_profile.py:1101-1133 | rax, eax to rcx, edx is refused |
| `InstructionLaws.SizesConsistentExactly` | scripts/derive_roblox_host_abi_profile.py:1164-1181 | the object size stands at both places and is a multiple of 8 from 0x100 to 0x1000 |
| `Scoring.Rank` | scripts/roblox_abi_solver.py:101-101 | a descending rearrangement of all entries, each once, in which equal scores keep their order |
| `Scoring.ChooseCandidate` | scripts/roblox_abi_solver.py:91-110 | returns the entry that clears 0.6 and leads all others by the margin; without one, the tie breaker exactly if it clears 0.6 and none is ahead of it |
| `Scoring.ThresholdExamples` | scripts/roblox_abi_solver.py:69-110 | a score of 0.6 is accepted and a lead of 0.2 is clear, and nothing noticeably less |
| `Scoring.NearBest` | scripts/roblox_abi_solver.py:83-88 | true exactly when an entry for the address has none ahead of it by the margin |
| `Scoring.ChosenByData` | scripts/roblox_abi_solver.py:391-407 | returns the one function using all of at least four mapped addresses, if it is a candidate |
| `Solver.DisplacedKeeps` | scripts/roblox_abi_solver.py:173-182 | pairing keeps the dictionaries inverse |
| `Solver.DisplacedHolder` | scripts/roblox_abi_solver.py:173-182 | pairing displaces only the one holder of the candidate |
| `Solver.Matcher.Pair` | scripts/roblox_abi_solver.py:173-182 | whoever held either side loses its pair, and no one else is touched |
| `Solver.GroupByShape` | scripts/roblox_abi_solver.py:185-190 | each shape lists exactly its functions, each once |
| `Solver.ShapeAnchors` | scripts/roblox_abi_solver.py:184-196 | anchors are exactly the pairs whose shape occurs once in each build |
| `Solver.VisitKeeps` | scripts/roblox_abi_solver.py:204-220 | a visit adds pairs only, each a same-position callee within the size tolerance, and leaves none of them to pair |
| `Solver.JustifiedExactly` | scripts/roblox_abi_solver.py:204-219 | what justified means in calls and sizes: an anchor, or one call position of two functions with equally many calls, with sizes within 16 bytes or a quarter |
| `Solver.SettledExactly` | scripts/roblox_abi_solver.py:204-219 | what settled means: no two callees at one position are both known, both free and close in size |
| `Solver.SizesCloseExactly` | scripts/roblox_abi_solver.py:217-218 | sizes are close within 16 bytes or a quarter of the reference's |
| `Solver.Matcher.PropagateCalls` | scripts/roblox_abi_solver.py:198-221 | ends; no pair is removed or changed; every pair is an anchor or a same-position callee of an earlier pair; nothing is left to pair |
| `Solver.FewerUnpaired` | scripts/roblox_abi_solver.py:202-221 | a round that discovers a pair leaves strictly fewer reference functions unpaired |
| `Solver.Matcher.constructor` | scripts/roblox_abi_solver.py:161-171 | a new solver holds all anchors and their propagation, inverse dictionaries and no matches |
| `Solver.ScoreAll` | scripts/roblox_abi_solver.py:355-359 | full scores of the 64 candidates with the best graph scores, and of the vtable slot if it is a candidate |
| `Solver.Decide` | scripts/roblox_abi_solver.py:360-375 | a clear lead decides first, then the vtable slot among the tied, the pinned slot, and the data; nothing is returned exactly where none of them decides |
| `Solver.RunnerUp` | scripts/roblox_abi_solver.py:385-385 | the highest score of the others, or zero |
| `Solver.Matcher.Candidates` | scripts/roblox_abi_solver.py:341-354 | exactly the gathered, present and vtable candidates that are unclaimed by others, not oversized and within the contract |
| `Solver.Matcher.MatchFunction` | scripts/roblox_abi_solver.py:321-389 | a known name is answered from the record; a decided match is eligible, recorded with its score, lead and reason, claimed and paired; a refusal changes nothing and means no evidence decides |
| `Solver.ClaimKeeps` | scripts/roblox_abi_solver.py:386-388 | an accepted match keeps the dictionaries inverse and every start's latest match paired |
| `Solver.MatchesNeverConflict` | scripts/roblox_abi_solver.py:321-389 | over every run of matches the dictionaries are inverse, two starts never hold one candidate, and a start's latest pair is never taken by another start |
| `Pixels.CopyPlane` | stubs/libmediandk_stub.cc:365-375 | copies the rows into place, in bounds, and leaves every other byte |
| `Pixels.FillI420` | stubs/libmediandk_stub.cc:355-375 | the three copies are in bounds and together give the I420 form |
| `Pixels.ClientSeesSample` | stubs/libmediandk_stub.cc:355-375 | for all positive sizes, odd ones included, each luma and chroma sample is found at its stride and slice-height address |
| `Pixels.PaddingIsGrey` | stubs/libmediandk_stub.cc:362-362 | luma bytes beside or below the picture are 128 |
| `Codec.PlaceKeeps` | stubs/libmediandk_stub.cc:250-260 | filling the first free slot never touches a ready or client-held one |
| `Codec.ReceiveKeeps` | stubs/libmediandk_stub.cc:379-398 | receiving keeps slots and order, whatever the decoder returns |
| `Codec.ReceiveEnds` | stubs/libmediandk_stub.cc:379-398 | a decoder that is finishing and does not fail adds the end of the stream, once and last; one that takes input adds none |
| `CodecLaws.ReceivedEmissions` | stubs/libmediandk_stub.cc:379-398 | receiving emits exactly the frames of a supported format, in order, and behind them the end of the stream if the decoder has come to its end |
| `CodecLaws.InputEmissions` | stubs/libmediandk_stub.cc:400-416 | one queued input emits all frames from before the retry, after the send and after the drain packet, in that order, then the end if the drain completes; each is ready to be dequeued behind the others |
| `Codec.QueueInputKeeps` | stubs/libmediandk_stub.cc:570-609 | queuing input in any state keeps the protocol invariant |
| `Codec.DequeueOutputKeeps` | stubs/libmediandk_stub.cc:611-643 | dequeuing keeps it: the front buffer passes to the client, or a format change is announced first |
| `Codec.ReleaseKeeps` | stubs/libmediandk_stub.cc:654-661 | releasing a held slot keeps it |
| `Codec.RunKeeps` | stubs/libmediandk_stub.cc:503-661 | every run of client calls keeps it |
| `Codec.SlotsNeverShared` | stubs/libmediandk_stub.cc:250-260 | after any run ready slots are distinct, in use and apart from client-held ones, and the delivered buffers are the first emitted ones, in order |
| `CodecLaws.SlotsDoNotLeak` | stubs/libmediandk_stub.cc:250-260 | over every run the slots in use are exactly the ready ones and the client's |
| `Codec.OneEndPerDrain` | stubs/libmediandk_stub.cc:509-528 | in every run whose client starts the codec only after configuring or flushing it, an end of stream is emitted only while draining, once and last; where the decoder completes its drains, a draining codec has emitted it |
| `Codec.DrainCompletes` | stubs/libmediandk_stub.cc:601-605 | an input ends the stream exactly when it drains the codec, the decoder takes the drain packet and reaches its end without an error |
| `Codec.RestartEndsAgain` | stubs/libmediandk_stub.cc:509-519 | after a start without a flush, input makes a codec that is not draining emit an end of stream exactly when the decoder had taken a drain packet and does not fail before its end |
| `Codec.RestartWithoutFlush` | stubs/libmediandk_stub.cc:509-519 | a concrete run, drain, start, queue, in which that happens |
| `Codec.NothingAfterEnd` | stubs/libmediandk_stub.cc:586-605 | in every run from a draining codec without a reset, nothing is added to the stream |
| `Codec.HeldBufferIsStable` | stubs/libmediandk_stub.cc:250-260 | after any run, a buffer the client holds stays unchanged through every further run in which it neither gives the slot back nor resets the codec |
| `Codec.DequeuedPictureIsRight` | stubs/libmediandk_stub.cc:611-691 | in any reachable state, a video buffer just dequeued holds the next emitted frame, and reading it with the reported stride and slice height gives exactly its samples |
| `CodecLaws.DequeuedBufferIsRight` | stubs/libmediandk_stub.cc:611-643 | in any reachable state a dequeued buffer is the front one, with the next emission's time stamp, samples and flags, under the format told last |
| `CodecLaws.FrontComesOut` | stubs/libmediandk_stub.cc:622-638 | nothing to dequeue exactly when nothing is ready; a format is announced exactly when it differs from the one told last, and the next call hands over that buffer |
| `CodecLaws.InputsComeBack` | stubs/libmediandk_stub.cc:541-609 | an input buffer is handed out exactly when one is free, the codec is not draining and fewer than four outputs wait, and queuing it frees it again on every path |
| `CodecLaws.ResetStartsOver` | stubs/libmediandk_stub.cc:418-424 | a flush or start frees all buffers, drops what was ready and ends draining; a flush has the decoder take input again, a start forgets the formats told |
| `MediaCodec.AMediaCodec.TakeOutputSlot` | stubs/libmediandk_stub.cc:250-260 | the first free slot, or a new one behind the last |
| `MediaCodec.AMediaCodec.EmitOutput` | stubs/libmediandk_stub.cc:334-377 | fills one slot with exactly the emission and queues it |
| `MediaCodec.AMediaCodec.ReceiveFrames` | stubs/libmediandk_stub.cc:379-398 | refines `Receive`: frames in order, then the end of stream if the decoder reports end-of-file |
| `MediaCodec.AMediaCodec.SendPacket` | stubs/libmediandk_stub.cc:400-416 | refines `Send`: drains first and retries when the decoder is full |
| `MediaCodec.AMediaCodec.ResetAll` | stubs/libmediandk_stub.cc:418-424 | frees all inputs and outputs, empties the queue and ends draining |
| `MediaCodec.AMediaCodec.FlushCodec` | stubs/libmediandk_stub.cc:521-528 | a reset that also returns an open decoder to taking input |
| `MediaCodec.AMediaCodec.StartCodec` | stubs/libmediandk_stub.cc:509-519 | refused unless opened; resets the buffers and the reported formats, and leaves the decoder as it is |
| `MediaCodec.AMediaCodec.DequeueInputBuffer` | stubs/libmediandk_stub.cc:541-561 | the first free input, none while draining or with four outputs waiting |
| `MediaCodec.AMediaCodec.QueueInputBuffer` | stubs/libmediandk_stub.cc:570-609 | refines `QueueInput` and succeeds exactly for a fitting index on a codec that is and stays open |
| `MediaCodec.AMediaCodec.DequeueOutputBuffer` | stubs/libmediandk_stub.cc:611-643 | refines `DequeueOutput`: a changed format is reported once before the buffer |
| `MediaCodec.AMediaCodec.ReleaseOutputBuffer` | stubs/libmediandk_stub.cc:654-661 | frees the slot and ignores indices out of range |
| `CtorBisect.BoundaryIsFresh` | scripts/bisect_libroblox_ctors.py:405-446 | where a prefix turns bad, the last constructor is not skipped already |
| `CtorBisect.Bisector.FindFirstBad` | scripts/bisect_libroblox_ctors.py:405-446 | reports a constructor exactly when the full set is bad; its preceding prefix is good and its own is not; a silent log of the last bad trial makes it ask one more; at most ceil(log2 n) + 2 trials |
| `CtorBisect.LogIsCeiling` | scripts/bisect_libroblox_ctors.py:421-440 | the bound is the binary logarithm rounded up: 2^(Log(n)-1) < n <= 2^Log(n) |
| `CtorBisect.QuarantineKeeps` | scripts/bisect_libroblox_ctors.py:474-490 | the quarantined constructor was not skipped before, every shorter prefix keeps its outcome, and the scan is not stuck on it |
| `CtorBisect.Bisector.ScanPrefix` | scripts/bisect_libroblox_ctors.py:449-495 | ends from every start but those where it is stuck with telling logs; from a start that is not stuck, with good and bad outcomes and telling logs, every prefix past the start up to the limit is good under the final skip list; otherwise it left off at a trial that was neither or whose log was silent; each quarantine was provoked by a bad trial and is of a constructor not skipped before, in order |
| `CtorBisect.ScanEndsExactlyUnless` | scripts/bisect_libroblox_ctors.py:461-494 | a scan ends exactly unless it starts on an index inside its range whose prefix is bad with and without that constructor, and every log from its first trial on tells that constructor's offset |
| `CtorBisect.StepsProgress` | scripts/bisect_libroblox_ctors.py:461-494 | a scan that is not stuck at its start has, after any number of steps, quarantined each constructor at most once, in order, and every prefix past the start is good under its skip list |
| `CtorBisect.UnstuckEnds` | scripts/bisect_libroblox_ctors.py:461-494 | such a scan ends within two trials per index, one if the constructor is skipped already |
| `CtorBisect.StopsAtEnd` | scripts/bisect_libroblox_ctors.py:471-494 | with good and bad outcomes only and telling logs, a scan stops nowhere but at its end |
| `CtorBisect.StuckSteps` | scripts/bisect_libroblox_ctors.py:474-487 | a stuck scan quarantines the same constructor with every trial and never moves on while the logs tell its offset |
| `CtorBisect.StuckScan` | scripts/bisect_libroblox_ctors.py:461-487 | two concrete constructors: with telling logs the scan never ends, with silent ones it ends at once |
| `CtorBisect.Bisector.Hunt` | scripts/bisect_libroblox_ctors.py:566-589 | each constructor found ends the first bad prefix under the skip list by then; the list never repeats an offset, rounds are bounded by the constructor count and trials by rounds times a logarithm, and the verdict says what the last trial showed |
| `CallSite.FindGetterCall` | include/compat/web_view_protocol_contract.h:122-153 | returns a target exactly when one window of the scanned words matches, and then that window's branch target |
| `CallSite.SiteExactly` | include/compat/web_view_protocol_contract.h:128-143 | a window matches exactly when it encodes add x8, sp, #slot; bl; ldr xN, [sp, #slot]; ldr x8, [xN, #0x18] for some slot, offset and register |
| `CallSite.ScannedExactly` | include/compat/web_view_protocol_contract.h:125-128 | exactly the windows in the code and in its first 128 bytes are scanned |
| `CallSite.WordRoundTrip` | include/compat/web_view_protocol_contract.h:47-56 | words are read lowest byte first |
| `CallSite.SitesDoNotOverlap` | include/compat/web_view_protocol_contract.h:128-143 | matching windows never overlap |
| `CallSite.CallRoundTrip` | include/compat/web_view_protocol_contract.h:145-148 | decoding the signed 26-bit word offset inverts the BL encoding |
| `CallSite.TargetInvertsCall` | include/compat/web_view_protocol_contract.h:145-150 | the target of a call encoded for a getter within reach is that getter's address modulo 2^64 |

## Left out

- Looper: real time, poll termination, the size of the event buffer, the `polling` flag, reference counts, null or invalid loopers, and the wake counter; a wake is a ready entry with token 0 that the kernel may report at any wait.
- Looper: callbacks may add and remove descriptors but do not poll again; whether a callback's registration is still current when it is invoked within one batch is not claimed, since the code does not check it.
- LooperRuns.RegistrationsStayConsistent: the kernel agreement is stated for fewer than 2^64 drawn tokens, since after that a stale kernel entry may carry a reused token; so are the properties of queued responses.
- Looper: the kernel is a list of entries keyed by open file and descriptor, and each `epoll_ctl` may fail with any error.
- AssetCache: asset contents and logging; the test of one file is one step, and so is each locked section.
- Sleb128, Aps2: the decoder is a list or nothing, not a lazy generator, and the kinds of error are not told apart; or-ing disjoint bit groups is written as addition.
- Deriver: Capstone disassembly, signature masks, hashing, JSON, ELF parsing, and registry, JNI and FMOD derivation; instructions, masks, segments and matched addresses are inputs.
- Solver.Matcher.MatchFunction: how candidates are gathered and scored is not modelled; candidates, scores and mapped data are inputs, and scores are real numbers instead of floats.
- Solver.Matcher.constructor: does not build the data map; mapping single instructions or data is left out too.
- Solver: the iteration order of the pair dictionary is tracked only while pairs are added, as propagation needs it.
- Codec: the FFmpeg decoder is modelled by where it stands (taking input, finishing, finished) and by arbitrary frames and failures.  Clients release only what they hold, and a buffer that is reset no longer counts as held.
- Codec: a configure call with a surface, which is refused before it changes anything.
- MediaCodec.AMediaCodec.EmitOutput: the conversion of audio samples to PCM is an input.
- Codec: packet and codec-data assembly, the audio output format, waiting on the condition variable, and overflow of buffer sizes.
- CtorBisect: starting processes, reading and classifying logs; a trial's outcome is a function of the set of constructors run, and a log either gives the right offset or none.
- CallSite: the x86-64 scanner and the getter contracts, which would add only easy members.
- The rest of the repository: process orchestration, graphics, audio and log stubs, and coordinators declared only in headers.

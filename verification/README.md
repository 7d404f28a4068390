# libnl: a model and its proofs

libnl talks to the Linux kernel over netlink sockets. This project models the
parts of it where state, bytes and arithmetic interact most, and proves what
they are for. Each theme has its own modules.

**Object caches** (`Types`, `List`, `Objects`, `HashTables`, `CacheIndex`,
`Caches`, `CacheSearch`, `CacheSync`, `CacheOps`, `CacheRuns`). A cache is an
intrusive ring of reference-counted objects, with a chained hash table over the
same objects for types with a key generator. The modules keep the links, chains
and counts on the heap, and prove that list and index agree, that a lookup is a
linear scan, and that over any run over any number of caches each count is
exactly what outside holders, lists and tables account for. A `Client` is such a
program; `holders` of an object counts the references its C code would hold, and
`freed` says that its memory was given back.

**Keeping a cache in step** (`ResyncSpec`, `CacheResync`, `Convergence`,
`Follow`, `Manager`). Events, refills and resyncs are proved to be updates of a
map from identity to payload: events by `CacheRuns.IncludeIsMapUpdate`, whole
dumps by `CacheResync.Refill` and `CacheResync.Resync`. `Convergence` puts these updates
into the manager's protocol, as a state machine whose steps interleave kernel
changes with joining, dumping and event handling, and proves that the cache
converges because the groups are joined first; `Follow.FollowRun` says the same
of a cache on the heap that is filled and led by such a run.

**Hashing, addresses, keys** (`JenkinsHash`, `HashVector`, `Addresses`, `Idiag`,
`Neighbours`). The Jenkins hash gives the same digests for every alignment, its
mixers are reversible, and a published digest comes out; prefix comparison is the order of bit strings. Two of
the hashed object types, diagnosed sockets and neighbours, are shown to have a
sound key generator, which is what the index relies on. Neighbours are also
where attributes that are not compared, and id attributes that vary, show in
what a cache does.

**Local ports** (`WordBits`, `Ports`, `Sockets`). The 1024-bit map, its
scattered walk, sockets that own slots, and connect retries that set slots aside.

**Receiving** (`Recv`, `RecvCalls`, `RecvMeaning`, `Sequence`). The receive loop
as a fold over messages for any callbacks, which of them it calls and where their
answers lead, what the fold means without them, and sequence numbers over a
conversation.

**Attributes** (`Options`, `Bytes`, `AttrStream`, `AttrParse`, `AttrLookup`,
`Message`). A buffer is filled with nested attributes and read back by a walk
that is safe on any bytes; how far it grows on the way decides whether it fits.

**Connection tracking** (`Conntrack`, `ConntrackParse`, `ConntrackSound`,
`ConntrackRoundTrip`, `ConntrackCompare`). The builder and the parser as clients
of the attribute functions: what the parser guarantees on any bytes, the round
trip, and what the library's own comparison says of it.

**MPLS labels** (`Mpls`). Label stacks as text and back.

Where the code does something its documentation does not say, the model follows
the code:

- `nl_cache_move` keeps a reference too many when the cache refuses the object
  (lib/cache.c:534-539); `CacheRuns.Move` states it exactly.
- A failed refill makes the manager leave all groups of the type, also those
  another managed cache needs (lib/cache_mngr.c:351-364); `Manager.AddKeeps`
  says when that matters.
- `nl_cache_find` takes its fast path for a filter that carries exactly its id
  attributes, and misses objects that match the filter but are identified by
  other attributes (lib/cache.c:1149-1169, lib/route/neigh.c:319-332);
  `CacheIndex.FastFindIsScan` has the exact condition.
- An event that differs from the cached object only in attributes the type does
  not compare replaces it without a callback (lib/cache.c:838-848);
  `CacheRuns.SilentChange` says when.
- Building a conntrack message into a buffer that only the tuples fit returns
  zero and no message (lib/netfilter/ct.c:531-547); `Conntrack.BuildMessage`
  says for which sizes.
- Zone and timestamp are not compared (lib/netfilter/ct_obj.c:315-345).
- The prefix length of an address without bytes does not count in a comparison
  (lib/addr.c:586-610).
- An interruption flag is forgotten when the read that ends the call gives 0 or
  less (lib/nl.c:842-853); `RecvMeaning.InterruptionReported` is exact.

`dafny verify dfyconfig.toml` checks the whole project.

## Model

| member | source | states |
|---|---|---|
| List.ListAddTail | include/netlink/list.h:29-43 | Appending splices the head into a well-formed ring as its last element, in both directions |
| List.ListDel | include/netlink/list.h:51-55 | The ring closes over the removed head, whose own links stay as they were, so it never looks empty again |
| Objects.Diff | include/netlink-private/object-api.h:210-266 | The difference is exactly the attributes that are listed and compared and present in one only or different |
| Objects.ObjectDiff | lib/object.c:362-370 | For objects of one comparable type the difference is exactly the attributes that the type compares and that mismatch; for others it is not empty |
| Objects.IdenticalIffSameKey | lib/object.c:314-348 | With listed id attributes: identical exactly when both carry all of them with the same values; without a list: when no compared attribute of both differs |
| Objects.IdenticalMeans | lib/object.c:314-348 | With listed id attributes: identical exactly when both list the same ones, carry all of them and have one value of each |
| Objects.SelfIdenticalIffComplete | lib/object.c:339-341 | An object is identical to itself exactly when its type compares at all and it carries all id attributes there are |
| Objects.ObjectGet | lib/object.c:205-210 | One reference more, on an object that is not freed |
| Objects.ObjectPut | lib/object.c:216-230 | One reference less; freed exactly at zero, by when it must be out of every cache |
| Objects.ObjectClone | lib/object.c:111-146 | Same type, payload and message type; a single reference, no cache, an empty list head |
| HashTables.HashLookup | lib/hashtable.c:87-103 | Returns the first object of the key's bucket that is identical to the needle, or null |
| HashTables.HashAdd | lib/hashtable.c:118-148 | Refuses exactly when the bucket holds an identical object, otherwise prepends and takes one reference; other buckets stay |
| HashTables.HashDel | lib/hashtable.c:162-191 | Unlinks exactly the first identical node of the bucket and drops one reference, the last one too, or reports that there is none and changes nothing |
| HashTables.HashLocate | lib/hashtable.c:172-190 | The walk stops at the first identical node, with its predecessor remembered |
| HashTables.Unlink | lib/hashtable.c:173-181 | Relinking in place removes that one node and keeps every chain well formed |
| HashTables.WithoutNode | lib/hashtable.c:162-191 | Without one node the chains still share nothing, and exactly one bucket lost exactly one object |
| CacheIndex.LookupIsScan | lib/cache.c:1085-1097 | On a duplicate-free cache the bucket lookup finds exactly what a linear scan of the whole list finds, for needles of any type |
| CacheIndex.FastFindIsScan | lib/cache.c:1149-1169 | The fast path of a find returns what the filter scan would exactly when the scan finds nothing, or an object with the same id attributes and the filter's exact values |
| CacheIndex.FixedFindIsScan | lib/cache.c:1149-1169 | So for types whose id attributes are fixed and compared strictly the fast path is always right |
| CacheIndex.MatchingMeans | lib/object.c:406-415 | For any filter: what the scan finds carries every attribute of the filter that its type compares, with an equal or forgiven value; every object before it is of another type or fails at such an attribute, and so do all when it finds nothing |
| CacheIndex.IdenticalUnique | lib/object.c:314-348 | A duplicate-free list holds at most one object identical to a needle |
| CacheIndex.AddAgrees | lib/cache.c:435-456 | Adding an object that is not found keeps list and index in agreement and free of duplicates |
| CacheIndex.RemoveAgrees | lib/cache.c:552-574 | Removing a listed object removes its own node, and list and index still agree |
| CacheIndex.ContentHas | lib/cache.c:435-456 | In a duplicate-free cache each object's payload is what the key map holds |
| CacheIndex.ContentRemove | lib/cache.c:552-574 | Removal deletes exactly one key of the map |
| CacheIndex.ContentSize | lib/cache.c:69-72 | A duplicate-free cache has as many objects as keys |
| CacheIndex.FoundIffKey | lib/cache.c:1114-1130 | A search succeeds exactly when the key is in the map, and finds its payload |
| CacheIndex.IncludeNewContent | lib/cache.c:787-860 | Taking the old object out and appending the new one overwrites or inserts one key |
| CacheIndex.RemoveFirstContent | lib/cache.c:787-860 | Taking the identical object out removes that key and no other |
| Caches.AllocCache | lib/cache.c:184-216 | A new cache satisfies the whole cache invariant and is empty |
| Caches.CacheInsert | lib/cache.c:435-456 | Fails exactly when the index holds an identical object and then leaves the cache alone; otherwise the object is last on the list and indexed |
| Caches.RemoveFrom | lib/cache.c:552-574 | The object leaves list and index, the cache drops all its references to it, and it is freed exactly when none is left outside |
| Caches.CacheAdd | lib/cache.c:480-504 | An object that was ever on a list is cloned, any other is added itself; error codes and counts exact |
| CacheSearch.CacheSearchFor | lib/cache.c:1114-1130 | With or without an index: the first identical object of the list, with one more reference |
| CacheSearch.CacheFind | lib/cache.c:1149-1169 | The indexed answer on the fast path, the first match of the scan otherwise, with one more reference |
| CacheSearch.ScanIdentical | lib/cache.c:1122-1127 | Walking the ring visits the objects in order and stops at the first identical one |
| CacheSearch.ScanMatching | lib/cache.c:1161-1166 | Walking the ring stops at the first object that matches the filter |
| CacheSearch.MarkAll | lib/cache.c:1178-1187 | Exactly the listed objects are marked, all of them |
| CacheSync.CacheClear | lib/cache.c:367-375 | The safe iteration empties the cache; each object keeps only its outside references and is freed exactly when it has none |
| CacheSync.MoveLoose | lib/cache.c:524-540 | Success puts the object last; a refused insertion leaves one reference more than before |
| CacheSync.IncludeAct | lib/cache.c:787-860 | The list and the callback after an event about a fresh object |
| CacheSync.EventByValue | lib/cache.c:787-860 | The callback by values: new for an absent key, change when a compared attribute of the present one mismatches, delete for a removed key, otherwise none |
| ResyncSpec.AppliedAppend | lib/cache.c:902-912 | Entries applied in two runs do what they do in one |
| ResyncSpec.AppliedLocal | lib/cache.c:787-860 | An untouched key is as before, a touched one depends on the entries alone |
| ResyncSpec.LastEntryWins | lib/cache.c:787-860 | The last entry about a key decides its value |
| ResyncSpec.DumpKeys | lib/cache.c:914-975 | A dump of new objects leaves exactly its own keys |
| ResyncSpec.RestartedDump | lib/cache.c:944-951 | With restarts every entry of the last dump is there with its value, and no key lies outside the dumps together |
| ResyncSpec.ConsumedOk | lib/cache.c:938-958 | A run of requests that works reads all entries up to the dump that completes it, interrupted dumps included, and none of these was refused or broken |
| ResyncSpec.ConsumedFailed | lib/cache.c:938-958 | A run that fails, fails at its first dump that was refused or broken, with that error, having read all entries before |
| ResyncSpec.UntouchedMembers | lib/cache.c:960-968 | The objects reported as gone are those whose key no entry touched, each once |
| ResyncSpec.SameMembersSameContent | lib/cache.c:69-72 | The map of a duplicate-free list does not depend on the order of the list |
| CacheResync.ResyncDumps | lib/cache.c:938-958 | Interrupted dumps are asked for again without marking again; confirmed and unseen objects stay told apart, and each entry is reported by value |
| CacheResync.Sweep | lib/cache.c:960-968 | Exactly the objects still marked leave the cache, each reported once, while the list is walked |
| CacheResync.Resync | lib/cache.c:914-975 | A successful resync leaves exactly what the dumps said, the last entry of each key, and reports once each key that vanished; a failed one sweeps nothing; each entry is reported as the map made by those before it calls for |
| CacheResync.RefillDumps | lib/cache.c:1047-1074 | The repeated requests of a refill load all consumed entries in order |
| CacheResync.Refill | lib/cache.c:1041-1077 | Whatever the cache held, it holds what was read; with an index the first object of each key |
| CacheResync.AddReplacing | lib/cache.c:714-731 | An identical object gives way to the new one, which is last |
| CacheOps.NodeOwner | lib/hashtable.c:118-148 | A hash node's object is in the cache whose table holds the node |
| CacheOps.Apart | lib/cache.c:435-456 | Two caches share no list head, object or hash node |
| CacheRuns.Alloc | lib/object.c:55-76 | A new object has one outside reference and is in no cache |
| CacheRuns.Take | lib/object.c:205-210 | Taking a reference keeps every object of every cache accounted for |
| CacheRuns.Drop | lib/object.c:216-230 | Giving a reference back keeps them accounted for, and frees exactly at zero |
| CacheRuns.Remove | lib/cache.c:552-574 | Removal from one cache leaves all others as they are |
| CacheRuns.Insert | lib/cache.c:435-456 | One outside reference becomes the list's, or stays outside when the cache refuses |
| CacheRuns.Search | lib/cache.c:1114-1130 | The caller owns one reference to what is found, nothing else changes |
| CacheRuns.Move | lib/cache.c:524-540 | From whichever cache the object was in; a refused move keeps exactly one reference too many |
| CacheRuns.Add | lib/cache.c:480-504 | The caller's references stay as they were, whether the object or its clone was added or refused |
| CacheRuns.Clear | lib/cache.c:367-375 | Clearing one cache keeps every reference of the program accounted for |
| CacheRuns.Evict | lib/cache.c:798-821 | The identical object is found and taken out, and the caller holds one reference to it |
| CacheRuns.Include | lib/cache.c:787-880 | For any object, wherever it was: the first entry of the message types that has the object's decides; an object listed as new first sets its key and one listed as deleted removes it; error codes, callback and the other caches are exact |
| CacheRuns.IncludeIsMapUpdate | lib/cache.c:787-860 | An event sets or removes its own key and no other; the callback is new, change, delete or none, by what the map held and by the compared attributes, and tells a listener of differences exactly those |
| CacheRuns.SilentChange | lib/cache.c:838-848 | A new event changes the cache without a callback exactly when the present payload differs only in attributes that are not compared |
| CacheRuns.Changed | lib/cache.c:838-848 | A replaced object is reported unless its type can tell that no compared attribute mismatches |
| CacheRuns.CountIsSum | lib/object.c:216-230 | In every accounted state a count is the outside references plus one per list and one per table; freed exactly at zero and then linked nowhere; the item counter is the list's length |
| CacheRuns.LastIsOutside | lib/object.c:171-230 | Whoever gives back the last reference gives back an object that is in no list and no table |
| CacheRuns.Step | lib/cache.c:367-574 | One request does to lists, references and handles what it is for and nothing else: each operation as a relation of the pictures before and after |
| CacheRuns.Run | lib/cache.c:367-574 | Any run of allocation, add, remove, move, clear, include, search and reference changes over any number of caches conserves all references, nothing freed comes back, and a trace from the first picture to the last shows what each request did |
| CacheRuns.StartConserved | lib/cache.c:184-216 | Empty caches and no objects are such a state |
| Convergence.FollowsStep | lib/cache_mngr.c:337-349 | Every step of kernel, dump and manager keeps the invariant that the queue explains the distance to the kernel |
| Convergence.RunFollows | lib/cache_mngr.c:337-349 | The invariant holds along every run |
| Convergence.AppliedOne | lib/cache.c:787-860 | One event sets or removes its own key |
| Convergence.Converges | lib/cache_mngr.c:337-349 | In every interleaving the kernel's map is the cache's after the waiting events; with none waiting they are equal |
| Convergence.RunExists | lib/cache_mngr.c:337-349 | Such runs exist: an object that changes between joining and dump, and whose event is handled after it |
| Convergence.DumpBeforeJoinLoses | lib/cache_mngr.c:337-349 | If the dump came before the groups, a concrete run ends with no event waiting and a wrong cache |
| Follow.FollowAll | lib/cache_mngr.c:47-113 | Events included into a hashed cache update its map one after the other, each reported by value |
| Follow.FillAndFollow | lib/cache_mngr.c:343-349 | A hashed cache that is refilled and then follows events holds the dumps' first entry of each key, updated by the events |
| Follow.CacheOfRun | lib/cache_mngr.c:337-349 | The protocol's cache is what its dumps and its handled events make, in every run |
| Follow.FollowRun | lib/cache_mngr.c:337-349 | A cache on the heap that is filled and led by a run holds exactly the kernel's objects once no event waits |
| Manager.FindSlot | lib/cache_mngr.c:310-319 | Whether the type is managed already, and the first free slot |
| Manager.MakeRoom | lib/cache_mngr.c:315-335 | The slots grow by eight exactly when none is free, and keep their entries |
| Manager.JoinAll | lib/cache_mngr.c:337-341 | Groups are joined in order up to the first failure |
| Manager.AddCache | lib/cache_mngr.c:293-364 | Result, slots and memberships for every outcome of joining and filling |
| Manager.AddResultMeans | lib/cache_mngr.c:300-364 | Which refusal comes first, from the protocol to the refill, and what it takes to be added |
| Manager.MembershipsMean | lib/cache_mngr.c:337-364 | Group by group: joined up to the first failure, all after success, none of the type's after a failed refill |
| Manager.AddKeeps | lib/cache_mngr.c:337-364 | One cache a type is kept; every managed cache stays subscribed exactly unless a failed refill drops a group it shares |
| Manager.EventInput | lib/cache_mngr.c:75-113 | The event goes to the first cache that knows its message type, or is skipped |
| Manager.RouteFinds | lib/cache_mngr.c:95-107 | When no two managed types share a message type, it reaches the cache of its type |
| Addresses.AddrBuild | lib/addr.c:218-240 | Family and bytes; the prefix is the number of bits of the address, but 20 for MPLS |
| Addresses.AddrClone | lib/addr.c:494-503 | Equal contents in storage of its own |
| Addresses.CmpZero | lib/addr.c:586-610 | Zero exactly for equal addresses, but the prefix of an empty address does not count |
| Addresses.CmpDecides | lib/addr.c:586-610 | Which address comes first: by family, length, bit string, prefix; turned round, the sign turns |
| Addresses.CmpTransitive | lib/addr.c:586-610 | The comparison is transitive, so it puts addresses in order |
| Addresses.MemCmpOrder | lib/addr.c:625-643 | Comparing bytes orders them as bit strings |
| Addresses.CmpPrefixOrdersBits | lib/addr.c:625-643 | Zero exactly when the bits both prefixes cover agree, otherwise the sign is the order of these bit strings |
| Addresses.OrderFirstDifference | lib/addr.c:625-643 | That order is decided at the first bit that differs |
| Idiag.IdiagKeygen | lib/idiag/idiag_msg_obj.c:901-936 | The key does not depend on where the hashed bytes lie in memory |
| Idiag.SameIdentitySameKey | lib/idiag/idiag_msg_obj.c:867-936 | Identical objects get the same key |
| Idiag.PackedApart | lib/idiag/idiag_msg_obj.c:901-936 | The hashed bytes are equal exactly when family, both ports and both addresses' hashes are |
| Idiag.IdiagKeygenSound | lib/idiag/idiag_msg_obj.c:901-958 | So the index of a cache of such objects is sound, for every table size |
| Neighbours.SameIdentitySameKey | lib/route/neigh.c:206-332 | Identical neighbours get the same key, whichever id attributes they have |
| Neighbours.PackedApart | lib/route/neigh.c:206-264 | The hashed bytes of neighbours of one kind are equal exactly when family, device or master, and address or VLAN and link address are |
| Neighbours.NeighKeygenSound | lib/route/neigh.c:206-332 | So the index of a cache of neighbours is sound, for every table size |
| Neighbours.ProbesUnseen | lib/route/neigh.c:266-296 | An event that changes only the probes of a neighbour overwrites it without any callback |
| Neighbours.PortFilterMisses | lib/route/neigh.c:319-332 | A cached entry of a bridge port itself matches a filter, a scan finds it, and the fast path does not |
| Idiag.AddrValueIffCmp | lib/addr.c:586-610 | Stored address values are equal exactly when the library compares them as equal |
| JenkinsHash.MixReversible | lib/hash.c:102-110 | mix has an inverse on all triples of words |
| JenkinsHash.FinalReversible | lib/hash.c:137-146 | final has an inverse on all triples of words |
| JenkinsHash.LittleWords | lib/hash.c:185-250 | Reading 32 bits at a time computes the digest |
| JenkinsHash.LittleHalves | lib/hash.c:252-297 | Reading 16 bits at a time computes the digest |
| JenkinsHash.LittleBytes | lib/hash.c:299-340 | Reading bytes computes the digest |
| JenkinsHash.HashLittle | lib/hash.c:176-345 | For every key, base and address the result is the one digest: alignment does not show |
| JenkinsHash.BigWords | lib/hash.c:362-428 | Reading 32 bits at a time computes the big-endian digest |
| JenkinsHash.BigBytes | lib/hash.c:429-471 | Reading bytes computes the big-endian digest |
| JenkinsHash.HashBig | lib/hash.c:353-475 | For every key, base and address the result is the one digest |
| JenkinsHash.HashAny | lib/hash.c:477-483 | The value handed to callers depends on key and base only |
| JenkinsHash.DifferenceSurvives | lib/hash.c:58-110 | Different internal states stay different under any further blocks |
| JenkinsHash.BlockInjective | lib/hash.c:303-342 | Different first blocks leave different states |
| JenkinsHash.OneBlockApart | lib/hash.c:303-342 | Keys of one length that differ in a single 12-byte block, the partial last one included, end in different triples |
| HashVector.FourScore | lib/hash.c:102-345 | The digest of the phrase its author publishes a value for, so the constants and rotations are the original ones |
| WordBits.OrBits | lib/socket.c:158-173 | A bit of a disjunction is a bit of either side |
| WordBits.AndNotBits | lib/socket.c:123-138 | Clearing removes exactly the mask's bits |
| WordBits.SameBits | lib/socket.c:67-121 | A word is determined by its bits |
| WordBits.ContainsIffBits | lib/socket.c:141-156 | Masking gives the mask back exactly when every bit of it is set |
| Ports.PortRoundTrip | lib/socket.c:84-138 | Every slot's port leads back to the slot, even the substituted port 1024 |
| Ports.BlockReached | lib/socket.c:84-90 | Steps of 7 modulo 31 reach every block from 1 to 31, from any start |
| Ports.PlaceReached | lib/socket.c:95-104 | Steps of 13 modulo 32 reach every place, from any start |
| Ports.FreePlace | lib/socket.c:95-104 | The inner walk finds a free place in every word that is not full |
| Ports.AllFull | lib/socket.c:84-120 | A walk past 31 full blocks and a full block 0 has seen every slot taken |
| Ports.GenerateLocalPort | lib/socket.c:67-121 | Zero exactly when all 1024 slots are taken; otherwise one free slot is taken, in block 0 only when all other blocks are full |
| Ports.ReleaseLocalPort | lib/socket.c:123-138 | Exactly the port's slot is given back |
| Ports.UsedPortsSet | lib/socket.c:158-173 | Exactly one slot more is set aside |
| Ports.UsedPortsReleaseAll | lib/socket.c:141-156 | Exactly the slots set aside are given back |
| Sockets.NoSharedPort | lib/socket.c:338-410 | In every accounted state two sockets never have the same generated port |
| Sockets.AllocSocket | lib/socket.c:181-221 | A new socket owns no slot |
| Sockets.FreeSocket | lib/socket.c:244-257 | Freeing gives back the slot the socket owns, and only that |
| Sockets.SetLocalPort | lib/socket.c:404-410 | The former slot is given back exactly if the socket owned it |
| Sockets.SetLocalPortNoRelease | lib/socket.c:338-357 | A new slot is taken for the socket; the former one must be accounted for elsewhere |
| Sockets.GetLocalPort | lib/socket.c:365-390 | A generated port that the socket owns, or the largest port, unowned, exactly when no slot is free |
| Sockets.TryPort | lib/nl.c:139-166 | One bind attempt: the port in use moves from the socket to the slots set aside; no port exactly when all slots are taken |
| Sockets.BindRetries | lib/nl.c:131-169 | The ports tried are of different slots, none of which was taken; the retries go on exactly until a bind that does not find its port in use, until no slot is free, or for six rounds; afterwards nothing is set aside any more |
| Sockets.Connect | lib/nl.c:104-218 | The status is exactly that of the first step that fails, and connected exactly when the socket was free, got a descriptor and its buffers, the bind that counts worked and the name is one; no slot is lost or given back twice |
| Sockets.Step | lib/socket.c:181-410 | One request about one socket as a relation of the fields before and after |
| Sockets.Run | lib/socket.c:123-410 | Over any run of any number of sockets the taken slots are the owned ones and those set aside, each once, and a trace shows what each request did to its socket and that it did nothing to the others |
| Recv.Process | lib/nl.c:872-1010 | One message, for any callbacks: the next control point, the counters and the calls made are those of the fold |
| Recv.ByType | lib/nl.c:936-1008 | The branches on the message type, for any callbacks: truncated errors, overruns and error replies |
| Recv.MessagesSized | lib/msg.c:181-203 | Every message found in a datagram has the length its header says |
| Recv.ProcessDatagram | lib/nl.c:855-1012 | For any callbacks the inner loop is the fold over the datagram's messages; with skipping ones an in-order datagram is counted |
| Recv.Recvmsgs | lib/nl.c:827-1039 | For any callbacks the call is the fold over all datagrams read, calls included; without callbacks and with skipping ones it is the simpler folds of the meaning below |
| RecvCalls.AskMeans | lib/nl.c:810-824 | A callback is called exactly if it is set, and OK, SKIP, STOP and any other answer lead on, to the next message, out of the loop, out of the call |
| RecvCalls.TypeMeans | lib/nl.c:936-1008 | The callback of the message's type is called exactly if it is set, and its answer decides; without it errors, overruns and truncated messages have their own codes |
| RecvCalls.MessageMeans | lib/nl.c:872-1010 | For any callbacks: the kinds called for a message are those due in their order, up to the first that does not answer OK, whose answer leads to the next message, the end of the loop or the end of the call |
| RecvCalls.MessageSeen | lib/nl.c:872-1010 | A message counts as an answer and its flags are seen once it is past the check, and the end of a multipart message once its type is reached |
| RecvCalls.RunMeans | lib/nl.c:827-1039 | A whole call, for any callbacks and reads: every message handled is handled as one message is, in order; it ends with the code of the last, the count of those handled, or what the read gave |
| RecvMeaning.BatchMeans | lib/nl.c:855-1012 | The fold stops at the first message that ends the run, with its code; count, flags and expected number follow from the messages passed |
| RecvMeaning.InterruptionReported | lib/nl.c:910-1033 | A call reports an interruption exactly when the read that ends it gives bytes and some read had a flagged message past the sequence check |
| RecvMeaning.RunsOut | lib/nl.c:842-853 | Reads that run out are as a last read that gives nothing |
| RecvMeaning.FlagLost | lib/nl.c:842-853 | A concrete run with a flagged message that returns 0: the read after its first datagram gives nothing |
| Sequence.CompleteMsg | lib/nl.c:482-500 | The next number, the port and the protocol are filled in where the caller left them open; every flag stays, and the request flag is set, under automatic acknowledgement that one too |
| Sequence.SetFlagBits | lib/nl.c:495-499 | Setting a flag sets its bit and leaves all others |
| Sequence.AnswerInOrder | lib/nl.c:877-905 | A complete answer to a request is in order and ends exactly once |
| Sequence.AdvanceAllIsAhead | lib/nl.c:897-905 | The expected number advances by the answers read, modulo 2^32 |
| Sequence.InOrderAppend | lib/nl.c:877-905 | Answers in order may follow one another |
| Sequence.Session.Distance | lib/nl.c:482-500 | Next minus expected, modulo 2^32, is the number of unanswered requests |
| Sequence.Session.Send | lib/nl.c:482-500 | Sending keeps socket and kernel in step and adds one unanswered request |
| Sequence.Session.Answer | lib/nl.c:877-905 | An answer of the kernel keeps them in step |
| Sequence.Session.Receive | lib/nl.c:827-1039 | Receiving never returns a mismatch, and settles as many requests as it read answers |
| AttrStream.AttrsInside | lib/attr.c:149-178 | Over any bytes the walk ends, each attribute lies inside the stream, and none overlaps a later one |
| AttrStream.ReadFirst | lib/attr.c:149-178 | One attribute's bytes are read as it, and then what follows |
| AttrStream.AttrLayout | lib/attr.c:457-485 | Length and type in the first four bytes, the payload behind them, zeroes up to a multiple of four |
| AttrStream.ReadEncode | lib/attr.c:457-521 | Reading what a tree was written as gives the tree |
| AttrStream.PruneAllProper | lib/attr.c:916-955 | Dropping empty nests keeps a tree proper and never makes it longer |
| AttrStream.PruneAllMeans | lib/attr.c:916-955 | What is left has no empty nest, and trees without empty nests stay as they are |
| AttrParse.LastOfIs | lib/attr.c:243-277 | Characterises the last attribute of a type |
| AttrParse.FirstOfIs | lib/attr.c:324-334 | Characterises the first attribute of a type |
| AttrParse.FirstFaultIs | lib/attr.c:295-310 | The code is that of the first attribute that fails the policy |
| AttrParse.FaultMeans | lib/attr.c:189-222 | One attribute: too short for its policy or too long is one error, a string without a final zero byte the other, and an unknown type none |
| AttrParse.FirstFaultMeans | lib/attr.c:295-310 | A stream: the first attribute that breaks its policy, and which of the two errors it gives |
| AttrParse.ValidMeans | lib/attr.c:189-310 | A stream is accepted exactly when every attribute of a known type has its least and greatest length and, as a string, a final zero byte |
| AttrParse.Validate | lib/attr.c:295-310 | Over any bytes: zero exactly when all attributes are accepted, otherwise the error of the first that is not |
| AttrParse.Find | lib/attr.c:324-334 | Over any bytes: the first attribute of the type, or none |
| AttrParse.Parse | lib/attr.c:243-277 | Zero exactly when all attributes are accepted, otherwise the error of the first that is not; every slot has the last attribute of its type |
| AttrParse.MsgParse | lib/msg.c:215-223 | The same over a message's attributes, and the error for a message that is too short |
| AttrLookup.AttrsEncode | lib/attr.c:149-178 | Walking the bytes of trees visits these trees, with their types and payloads |
| AttrLookup.PayloadEncoded | lib/attr.c:243-277 | A parse of the bytes of trees finds the last tree of each type |
| AttrLookup.FaultsEncoded | lib/attr.c:189-222 | Trees that meet a policy are accepted by the parser |
| Message.Reserve | lib/attr.c:457-485 | Room check, header, zeroed padding behind the stored length, new message length; nothing else moves |
| Message.StoredLenExact | lib/attr.c:472 | The 16-bit length is right exactly for payloads of up to 65531 bytes |
| Message.Put | lib/attr.c:501-521 | The payload is behind a reserved header, or an error and an unchanged message |
| Message.PutBytes | lib/attr.c:501-521 | Such a put writes exactly one whole attribute |
| Message.MsgReserve | lib/msg.c:411-435 | For any padding the tail moves by the padded length, and only padding asked for is zeroed |
| Message.Append | lib/msg.c:449-461 | The data is at the former tail, or an error and an unchanged message |
| Message.PaddedToFour | lib/msg.c:411-435 | Padding to four is the alignment of the attributes |
| Message.NestStart | lib/attr.c:903-914 | An attribute header with the nested flag |
| Message.NestEnd | lib/attr.c:916-955 | The length is filled in, or the nest is cancelled when it is empty or longer than 65535 bytes |
| Message.NestCancel | lib/attr.c:995-1006 | Everything from the nest's start to the tail is zero, and an aligned message has its former length |
| Message.BuildOne | lib/attr.c:501-984 | A tree built call by call comes out as its bytes without empty nests; a call fails exactly when the highest point of the build does not fit the buffer |
| Message.BuildNest | lib/attr.c:903-984 | A nest over children that can be built: the exact outcome for empty, fitting and overlong, and for too little room |
| Message.CancelledNest | lib/attr.c:995-1006 | A filled nest that is given up restores length and bytes and zeroes what it wrote |
| Message.BuildAll | lib/attr.c:501-984 | The same for several trees in a row |
| Message.PeakAllBetween | lib/attr.c:501-984 | The highest point of a build lies between what comes out and what is put in |
| Message.BuildableProper | lib/attr.c:916-955 | Nests that fit their headers once their empty nests are dropped come out well formed |
| Message.ProperBuildable | lib/attr.c:457-521 | Trees that fit as they stand can be built |
| Message.BuiltReadsBack | lib/attr.c:903-984 | What was built reads back as the same trees, without empty nests unless they are kept |
| Conntrack.PresentProper | lib/netfilter/ct.c:440-503 | Optional attributes fit their headers and the room computed for them |
| Conntrack.SentInTwo | lib/netfilter/ct.c:506-548 | The message is the tuples followed by the scalars, in bytes and in length |
| Conntrack.TwoTuples | lib/netfilter/ct.c:425-529 | The reply is put after what is left of the original tuple, and the room both take follows from that |
| Conntrack.BuildTuple | lib/netfilter/ct.c:425-504 | The message grows by the tuple without its empty nests, and the error says exactly that its highest point does not fit |
| Conntrack.BuildTuples | lib/netfilter/ct.c:518-529 | The reply tuple follows exactly when both reply addresses are there; the error exactly when the two do not fit |
| Conntrack.BuildMessage | lib/netfilter/ct.c:506-548 | For every size the returned code and whether there is a message: with room for the tuples but not for what follows the code is zero without a message, and only then |
| Conntrack.ShortBufferUnnoticed | lib/netfilter/ct.c:518-547 | A concrete entry and size of that kind, in which a dropped tuple leaves room for the reply and not for the status |
| ConntrackParse.ParseIp | lib/netfilter/ct.c:102-155 | Addresses in the order they are set, and the error when one contradicts the family |
| ConntrackParse.ParseProto | lib/netfilter/ct.c:157-198 | Ports and ICMP fields, the latter by the entry's family |
| ConntrackParse.ParseTuple | lib/netfilter/ct.c:200-222 | Addresses first, then the protocol, stopping at the first error |
| ConntrackParse.ParseCounters | lib/netfilter/ct.c:260-285 | The counters are read in the order of the branches, after validation |
| ConntrackParse.ParseTimestamp | lib/netfilter/ct.c:300-316 | Start and stop are set together or not at all |
| ConntrackParse.ParseMessage | lib/netfilter/ct.c:318-391 | The whole parser over any bytes, with its errors in order |
| ConntrackParse.PayloadLong | lib/attr.c:189-222 | After a parse that succeeded a payload is as long as its policy asks |
| ConntrackSound.IpKeeps | lib/netfilter/ct.c:102-155 | Addresses are refused exactly when one is of another family than the entry's; otherwise the entry stays sound |
| ConntrackSound.ProtoKeeps | lib/netfilter/ct.c:157-198 | Ports and ICMP fields of any bytes stay within their widths, the shared half of the union included |
| ConntrackSound.CountersMean | lib/netfilter/ct.c:260-285 | A 32-bit counter wins over the 64-bit one, and the other direction and all other fields stay as they were |
| ConntrackSound.TimestampMeans | lib/netfilter/ct.c:300-316 | Start is the first attribute and stop the second, in network order, or none |
| ConntrackSound.MessageCounters | lib/netfilter/ct.c:367-377 | In an accepted message attribute 9 gives the counters of the original direction and attribute 10 those of the reply |
| ConntrackSound.TcpMeans | lib/netfilter/ct.c:224-239 | The state is the first byte of the first attribute |
| ConntrackSound.ScalarsMean | lib/netfilter/ct.c:346-363 | Each scalar comes from its own attribute and the mask says which were there |
| ConntrackSound.IpLengths | lib/netfilter/ct.c:57-62 | An accepted address attribute has the length its policy asks |
| ConntrackSound.ParsedSound | lib/netfilter/ct.c:318-391 | Whatever the bytes, an accepted message gives an entry of the message's family, with addresses of that family only and every field within its width |
| ConntrackRoundTrip.IpBack | lib/netfilter/ct.c:102-155 | The built address attributes are parsed as the entry's addresses |
| ConntrackRoundTrip.ProtoBack | lib/netfilter/ct.c:157-198 | The built protocol attributes are parsed as the entry's ports and ICMP fields |
| ConntrackRoundTrip.ProtoNums | lib/netfilter/ct.c:457-495 | The built protocol attributes, number by number |
| ConntrackRoundTrip.TupleBack | lib/netfilter/ct.c:200-222 | A built tuple, without its empty nests, is parsed as both |
| ConntrackRoundTrip.ScalarsBack | lib/netfilter/ct.c:346-363 | The built scalars are parsed as the entry's |
| ConntrackRoundTrip.MessageBack | lib/netfilter/ct.c:318-548 | Parsing a built message gives the copy of the entry, the omitted reply tuple included |
| ConntrackRoundTrip.CopiedAgrees | lib/netfilter/ct.c:425-548 | The copy has exactly the emitted attributes, all with equal values, the port and ICMP union included |
| ConntrackRoundTrip.EmittedMeans | lib/netfilter/ct.c:425-548 | Which attributes are emitted, by number: those present, and those of the reply when both its addresses are |
| ConntrackRoundTrip.IpWire | lib/netfilter/ct.c:440-455 | Where the addresses are in the message: 1 and 2 for IPv4, 3 and 4 for IPv6 |
| ConntrackRoundTrip.TupleWire | lib/netfilter/ct.c:425-529 | Where the tuples and their halves are in the message |
| ConntrackRoundTrip.BuildAndParse | lib/netfilter/ct.c:318-548 | Building and parsing as calls: it succeeds exactly when there is room, and the result has exactly the emitted attributes with equal values |
| ConntrackCompare.CompareIs | lib/netfilter/ct_obj.c:301-352 | The comparison reports exactly the mismatches, except for zone and timestamp |
| ConntrackCompare.ZoneUnseen | lib/netfilter/ct_obj.c:315-345 | Entries that differ in zone and timestamp only compare as equal |
| ConntrackCompare.CompareCopied | lib/netfilter/ct_obj.c:301-352 | Compared with the original, the parsed entry misses exactly what the builder does not emit |
| Mpls.Snprintf | lib/mpls.c:24 | The text cut to the room, with a terminator behind it, and its full length returned |
| Mpls.Ntop1 | lib/mpls.c:14-44 | Succeeds exactly when the text is shorter than the buffer, which then holds it with a terminator |
| Mpls.Pton1 | lib/mpls.c:58-91 | The entries of the stack the text stands for, or zero for a text that is none or too long |
| Mpls.StrtoulOfDec | lib/mpls.c:67 | A printed number is read back whole, in base 10, zero included |
| Mpls.StackOfText | lib/mpls.c:14-91 | Parsing the printed form gives the stack with traffic class and TTL cleared, if there is room and only then |
| Mpls.RoundTrip | lib/mpls.c:14-91 | Entries come back as they were exactly when traffic class and TTL are zero, the bottom bit is on the last only, and they fit |
| Mpls.ParsedPlain | lib/mpls.c:58-91 | Whatever text is accepted, the entries are such a stack |

## Left out

Of the caches:

- The payload of an object is fixed when it is made; setters on a cached object, which would spoil its place in the index, are not modelled.
- `oo_update` merging, `co_event_filter` and `co_include_event` are taken as absent, as for a type that does not define them.
- Locks, allocation failure, tracing and the caches' own reference counts.
- Buckets are lists of chained nodes in a sequence indexed by key; the table's array has one head for each.
- `nl_hash_table_free` on a table that still has nodes: caches are cleared first.
- Type-specific free and clone functions; a clone has the same attributes.
- CacheSync.IncludeAct: only for objects in no cache, because `CacheRuns.Include` covers any object.
- CacheSearch.CacheSearchFor: a needle of another type must have a key generator that is sound for the table's size, as the modelled ones are.
- Objects.ObjectPut: giving back the last reference to a listed object, which takes it out of its cache, cannot happen while references are accounted for (`CacheRuns.LastIsOutside`).
- Comparing by id as `nl_object_identical` asks for it differs from a strict comparison in one type only, IPv4 interface addresses with a peer (lib/route/addr.c:511-520), which has no index.
- Loose comparison is a choice of each type, which differences it passes over; the comparison of prefixes behind it is `Addresses.CmpPrefix`.
- CacheRuns.Run: a program names only objects it holds a reference to and adds only complete objects to an indexed cache, which is what the library asks of its callers.
- CacheResync.Resync: for duplicate-free caches whose dumped objects carry their id attributes, which is what identity needs, and for types that compare their id attributes.
- Objects.IdenticalIffSameKey: for types that compare the attributes they are identified by; `Objects.SelfIdenticalIffComplete` holds of all types.

Of the manager:

- Follow.FollowRun: the cache is hashed, and its objects carry their id attributes.
- Convergence.Converges: each key is announced by one group, dumps report a key at one moment each, and nothing is said about how long handling takes. A receive buffer overrun, after which events are lost, is not a step.
- Manager.AddCache: whether joins and the refill succeed are inputs; the refill itself is `CacheResync.Refill`.
- Polling, `nl_cache_mngr_free` and the choice of protocols.

Of hashing and keys:

- The checks that hash values spread well: statistics, not correctness.
- Idiag.IdiagKeygen: the port bytes and addresses are attributes of the object's payload; the other fields of a socket's diagnosis play no part in identity.

Of ports and sockets:

- The process id is a parameter, and the clock that seeds the walk too.
- The kernel's answers to socket(), bind() and getsockname() are inputs; buffers, credentials and memberships are left out.
- Sockets.Run: the caller passes ports that fit 32 bits, as the C type says.

Of receiving:

- `nl_recv`, credentials and the buffers' growth: what a read gives is an input, and so are the callbacks' results.
- Recv.Recvmsgs: the translation of kernel error numbers is a parameter that never yields the mismatch code, as in lib/error.c:86-115.
- Sequence.Session.Receive: for kernels that answer in order and end an answer with the last message of a datagram, and callbacks that return OK or SKIP.

Of attributes and messages:

- The host is little-endian where headers and plain integers are concerned.
- A message's length is kept beside the buffer, and buffers are shorter than 2^31 bytes.
- `nlmsg_expand`, the header fields other than the length, and the typed wrappers of put and get.
- Message.NestEnd: when a message is not aligned the padding must have room, as the function's own BUG() demands; messages built with the attribute functions are aligned.
- Message.BuildOne: for attributes whose payload fits the 16-bit length when it is put, nests once their own empty nests are dropped; `Message.StoredLenExact` says when that is.

Of connection tracking:

- An entry is a value; its reference counting and cloning are those of any object.
- `nfnl_ct_set_status` keeps a second mask for loose comparison, and `LOOSE_COMPARISON` itself: not part of this model.
- Conntrack.BuildMessage: addresses of up to 16384 bytes, more than any family has.
- ConntrackRoundTrip.BuildAndParse: IPv4 and IPv6 entries with addresses of full length, since the parser's policies refuse shorter ones.
- Message headers other than the family, and the request variants that differ in command and flags only.

Of MPLS:

- Mpls.Ntop1: the stack has a bottom within the array, as the function itself relies on.
- Mpls.Pton1: text is a C string without its terminator; digits, signs, spaces and bases are those of `strtoul` with base 0 and 64-bit results.

Not touched at all: the command line tools, dump and pretty-print functions,
string conversions, the cache type registry, generic netlink registration,
address parsing and printing, and the expectation, log and queue objects, which
repeat the pattern of connection tracking.

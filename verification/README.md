# Lantern, verified in Dafny

A model of the parts of Lantern that hold state, loops or arithmetic, and proofs
of what they are for.  Lantern is Open vSwitch with Centec's adaptation code; the
model covers its flow classifier, CAPWAP reassembly, flow-key codec and flow
table, bond balancing and link states, action interpreter, Internet checksum,
connectivity fault management, and the timers of the `afx` event loop.

`dafny verify dfyconfig.toml` checks the whole project.

| files | part |
|---|---|
| FlowMatch, Chains, ClsTable, PriorityList, Classifier, ClassifierRuns, Cursor, CursorRemoval | `ovs/lib/classifier.c`: a tuple-space index over rules, against a plain set of rules |
| Capwap, CapwapRoundTrip, CapwapStrangers | `ovs/datapath/vport-capwap.c`: splitting and reassembly (section 3.4 of RFC 5415), also with foreign fragments in between |
| FlowKey, FlowSpan, FlowFields, FlowParse, FlowPrint | `ovs/datapath/flow.c`: flow keys to and from attribute trees, and how much of a key counts |
| FlowChain, FlowTable | `ovs/datapath/flow.c`: the hash table of flows and its rebuilding under readers |
| BondLoads, BondBalance, BondChoice, BondLink, Bond | `ovs/lib/bond.c`: rebalancing and its choices in bytes, link state machine, active slave, output choice |
| Actions | `ovs/datapath/actions.c`: deferred output against an interpreter that sends at once |
| Csum | `ovs/lib/csum.c`: checksum and incremental update (equation 3 in section 3 of RFC 1624) |
| Cfm | `ovs/lib/cfm.c`: remote maintenance points and the fault check (Continuity Check protocol of IEEE 802.1ag) |
| AfxTime, AfxList, AfxTimer | `lib/afx`: timers on a doubly linked list |
| Options, Seqs, MachineInts | optional values; insertion and removal in sequences; bytes and machine words |

How the model stands for the code:

- A flow or mask of the classifier is the set of positions of its one-bits.  Rules
  are values whose `id` stands for the caller's object.  By the invariant the code
  states, a rule's flow has no bit outside its mask.
- Hash functions are parameters: every result holds for any of them.  A hash map is
  a dictionary with a sequence for its iteration order.
- Time, carrier, random numbers and message contents are parameters of the methods.
- An attribute tree is a sequence of typed attributes with what the walk over them
  leaves over; an attribute of an unknown type or a wrong length is `Bad`.
- Linked lists of timers and of flows are modelled down to their pointers.

Where a promise does not hold of the code, the model keeps the code and states
exactly when it does hold:

- `frag_queue` records a fragment's length and flags before it looks for overlaps.
  After a foreign fragment is rejected while the pieces of a packet come in, the first
  packet that the missing pieces complete is the payload if and only if the fragment is
  turned away on its flags, or is not marked last and ends within the payload
  (`CapwapStrangers.StrangerHarm`).  Otherwise that first packet is the payload cut
  short at the fragment's end if and only if the fragment is marked last and ends where
  some piece ends before which one is missing; in all other cases the pieces never
  complete the queue (`CapwapStrangers.AfterStranger`).  What comes after a completed
  packet is a new queue's concern, since a complete queue is no longer found.
  `Capwap.RejectedBlocks` and `Capwap.RejectedCuts` give fragments for the two kinds of
  harm.
- An incrementally updated checksum is the recomputed one if and only if the changed
  data are not all zero (`Csum.IncrementalUpdate`; `Csum.UpdateToZero` gives an input).
- Popping a VLAN tag that was pushed leaves the other tags on the wire as they were if
  and only if no tag with bit 0x1000 set comes out of the frame, where it loses that
  bit; it gives the very same packet if and only if no tag comes out of the frame
  (`Actions.PopUndoesPush`; `Actions.PopLosesBit` gives a packet).
- The comparison of `ovs_flow_tbl_lookup` covers only part of a key.  For the keys that
  the codec accepts it decides the whole key, if and only if the key looked up has a
  tunnel or the stored one has none (`FlowSpan.UsedPartDecides`;
  `FlowSpan.TunnelNotCompared` gives keys).
- A move of `bond_rebalance` brings the ratio of two loads closer to one.  It brings the
  loads themselves closer if and only if the bucket is not empty and smaller than the
  overload (`BondChoice.CloserLoads`; `BondChoice.MoveWidens` gives loads).
- If no callback starts or stops a timer, the timer loop reaches `poll` while the clock
  stands still if and only if no timer that is due has timeout 0
  (`AfxTimer.EventLoop.RunTimers`; `AfxTimer.EventLoop.StartAtZero` gives such a timer).

## Model

| member | source | states |
|---|---|---|
| FlowMatch.MatchesIsEqualInMask | ovs/lib/classifier.c:637-651 | the masked comparison of find_match holds exactly if the packet agrees with the rule on every bit the rule looks at |
| FlowMatch.LooseMatchIsInclusion | ovs/lib/classifier.c:405-412 | a rule loosely matches a criterion exactly if every packet of the rule is one of the criterion |
| FlowMatch.OverlapIsEqualInCombinedMask | ovs/lib/classifier.c:336-370 | two rules of one priority share a packet exactly if they agree on the bits both look at; the packet is built from the two masked values |
| Chains.KeysUnique | ovs/lib/classifier.c:666-706 | chains that are in order hold at most one rule of a match and priority |
| Chains.MaxAfterInsertion | ovs/lib/classifier.c:556-586 | max_priority and max_count stay the exact maximum and its multiplicity when a rule comes in |
| Chains.MaxAfterRemoval | ovs/lib/classifier.c:598-604 | they stay exact when a rule goes, unless it was the last one of the maximal priority |
| Chains.MaxAfterChain | ovs/lib/classifier.c:604-615 | in the rescan only the head of a chain can change the maximum |
| Chains.FlatRemoved | ovs/lib/classifier.c:231-243 | the other rules keep their order when a rule goes from its chain, also if the chain goes with it |
| Chains.MatchIsInChain | ovs/lib/classifier.c:637-651 | the head of the chain that agrees with a packet is a best match of the table |
| ClsTable.EmptyTable | ovs/lib/classifier.c:523-535 | a new table is valid and holds nothing |
| ClsTable.FindEqual | ovs/lib/classifier.c:653-664 | finds the chain of a masked value, or there is none |
| ClsTable.FindMatch | ovs/lib/classifier.c:637-651 | a best match among all rules of the table, or none of them matches |
| ClsTable.FindPosition | ovs/lib/classifier.c:685-694 | the place of a priority in a falling chain |
| ClsTable.InsertInChains | ovs/lib/classifier.c:666-706 | the chains keep their invariant and hold the rule in place of the one of its match and priority, if any |
| ClsTable.RemoveFromChains | ovs/lib/classifier.c:231-243 | the chains keep their invariant, and in their order lose exactly the rule |
| ClsTable.Rescan | ovs/lib/classifier.c:604-615 | computes the exact maximum and its multiplicity over all rules of the table |
| ClsTable.Insert | ovs/lib/classifier.c:666-713 | the table stays valid; contents and max_priority change exactly by the rule |
| ClsTable.Remove | ovs/lib/classifier.c:225-251 | the table stays valid and in its order loses exactly the rule; max_priority does not rise; it is empty exactly if its count is zero |
| ClsTable.FindExactly | ovs/lib/classifier.c:287-313 | finds the rule of a match and priority in a table, or there is none |
| ClsTable.OverlapsIn | ovs/lib/classifier.c:336-370 | answers whether a rule of the table overlaps the target, despite the break on falling priority |
| PriorityList.MovedEarlier | ovs/lib/classifier.c:568-586 | moving the one table that is out of order to its place restores the order and keeps the members |
| PriorityList.MovedLater | ovs/lib/classifier.c:617-634 | likewise in the other direction |
| Classifier.Classifier.constructor | ovs/lib/classifier.c:140-146 | an empty classifier meets the invariant |
| Classifier.Classifier.InsertTable | ovs/lib/classifier.c:523-535 | a new empty table at the end of the priority list keeps the index |
| Classifier.Classifier.MoveEarlier | ovs/lib/classifier.c:568-586 | the priority list is sorted by falling max_priority again and lists the same tables |
| Classifier.Classifier.MoveLater | ovs/lib/classifier.c:617-634 | the priority list is sorted by falling max_priority again and lists the same tables |
| Classifier.Classifier.Replace | ovs/lib/classifier.c:190-207 | the invariant is kept, and the set of rules gains the rule and loses the one of its match and priority, which is returned |
| Classifier.Classifier.InsertRule | ovs/lib/classifier.c:666-713 | the same for a rule whose table exists; other tables do not change |
| Classifier.Classifier.TakePlace | ovs/lib/classifier.c:693-706 | a rule in the place of one of its match and priority keeps the index, the order and the count |
| Classifier.Classifier.TakeIn | ovs/lib/classifier.c:707-713 | a rule of a new match or priority keeps the index, counts, and its table goes to its place |
| Classifier.Classifier.Remove | ovs/lib/classifier.c:225-251 | the invariant is kept, the set of rules loses exactly the rule, and so does the order of iteration |
| Classifier.Classifier.DestroyTable | ovs/lib/classifier.c:537-545 | removing an empty table leaves the index, the order of the other tables and the order of iteration |
| Classifier.RemovedInOrder | ovs/lib/classifier.c:225-251 | taking a rule out of its table takes it out of the order of iteration and moves no other |
| Classifier.DroppedInOrder | ovs/lib/classifier.c:537-545 | dropping an empty table leaves the order of iteration as it was |
| Classifier.Classifier.Lookup | ovs/lib/classifier.c:256-282 | a best match among all rules held, or none of them matches, despite the early exit |
| Classifier.NothingBetter | ovs/lib/classifier.c:263-278 | once a table's max_priority is below the best match, no later table holds a better one |
| Classifier.Classifier.FindRuleExactly | ovs/lib/classifier.c:287-313 | finds the rule of a match and priority, or there is none |
| Classifier.Classifier.RuleOverlaps | ovs/lib/classifier.c:336-370 | true exactly if some held rule of the target's priority shares a packet with it |
| Classifier.NoneOverlapsLater | ovs/lib/classifier.c:343-349 | once max_priority is below the target's, no later table holds an overlapping rule |
| ClassifierRuns.HeldKeysUnique | ovs/lib/classifier.c:190-251 | after any run at most one rule is held for a match and priority |
| ClassifierRuns.ReplaceApplies | ovs/lib/classifier.c:190-207 | what Replace does is the plain operation on sets |
| ClassifierRuns.LookupAfter | ovs/lib/classifier.c:190-282 | after any run of replacements and removals, lookup gives a best match among the rules of plain bookkeeping, or none of these matches |
| Cursor.WantedByHead | ovs/lib/classifier.c:414-438 | testing a table's mask and a chain's head decides loose matching for every rule of the chain |
| Cursor.SearchChains | ovs/lib/classifier.c:425-438 | the first chain whose head agrees, or none does |
| Cursor.SearchTables | ovs/lib/classifier.c:458-472 | the first position wanted from a table on |
| Cursor.Next | ovs/lib/classifier.c:476-507 | the next position wanted, with none in between |
| Cursor.VisitAll | ovs/lib/classifier.c:448-507 | an iteration visits each wanted rule once, no other, and stops |
| Cursor.Visit | ovs/lib/classifier.c:440-507 | a cursor over a classifier visits exactly the held rules that loosely match the target, each once |
| Cursor.GoalMatches | ovs/lib/classifier.c:440-456 | taking no target and a target with an empty mask for the one that matches everything changes nothing |
| Cursor.RestFollows | ovs/lib/classifier.c:476-507 | what follows a rule in the order of iteration is what is at later positions |
| CursorRemoval.FirstRule | ovs/lib/classifier.c:458-472 | the first wanted rule in the order of iteration, or none is wanted |
| CursorRemoval.NextRule | ovs/lib/classifier.c:476-507 | the first wanted rule among those that follow the given one |
| CursorRemoval.VisitRemoving | ovs/lib/classifier.h:130-136 | an iteration that fetches the next rule and then may remove the current one, and its table with it, visits each wanted rule once and removes exactly the doomed ones |
| Capwap.Position | ovs/datapath/vport-capwap.c:710-716 | the first place whose fragment does not start earlier |
| Capwap.FragQueue.FindPosition | ovs/datapath/vport-capwap.c:710-716 | the loop finds that place |
| Capwap.FragQueue.NoteHeader | ovs/datapath/vport-capwap.c:675-708 | flags, alignment and length are checked and recorded as specified |
| Capwap.FragQueue.Add | ovs/datapath/vport-capwap.c:668-761 | the mutating queue computes Enqueue, about which the rest is proved |
| Capwap.FragQueue.Reassemble | ovs/datapath/vport-capwap.c:601-666 | the pieces are joined in order, unless they are too long |
| Capwap.TilesByLength | ovs/datapath/vport-capwap.c:747-750 | pieces apart within [start, end) have its length exactly if they tile it |
| Capwap.EnqueueSound | ovs/datapath/vport-capwap.c:675-750 | whatever arrives, pieces stay sorted and apart, meat is the sum of lengths and every end is at most len |
| Capwap.TriggeredByTiling | ovs/datapath/vport-capwap.c:601-750 | reassembly is triggered exactly if the last fragment is known and the pieces tile [0, len), and fails exactly if that is more than 65535 bytes |
| Capwap.TilesConcat | ovs/datapath/vport-capwap.c:601-666 | pieces that tile a range join to data of its length that hold each piece in its place |
| Capwap.ReassembledHolds | ovs/datapath/vport-capwap.c:601-750 | whatever fragments came, a reassembled packet has the recorded length and holds the bytes of every piece queued in their place |
| Capwap.ReachableSound | ovs/datapath/vport-capwap.c:668-761 | every queue reached by any fragments is complete or sound |
| Capwap.RejectedUnchanged | ovs/datapath/vport-capwap.c:675-727 | exactly when a rejected fragment leaves the queue as it was |
| Capwap.RejectedBlocks | ovs/datapath/vport-capwap.c:691-727 | three fragments: after the second, which is rejected, the third, which completes the packet without it, is turned away |
| Capwap.RejectedCuts | ovs/datapath/vport-capwap.c:691-750 | three fragments: after the second, which is rejected, the third completes a packet of the two others, which it does not without it |
| Capwap.AcceptedExactly | ovs/datapath/vport-capwap.c:675-727 | a fragment is accepted exactly if it has data, is aligned or marked last, agrees with what is known of the end, and shares no byte with any piece held |
| CapwapRoundTrip.FragSize | ovs/datapath/vport-capwap.c:517-519 | a piece fits, is not empty, and is as many whole 8-byte chunks as fit unless it is the last |
| CapwapRoundTrip.Fragment | ovs/datapath/vport-capwap.c:484-569 | fails exactly without room for 8 bytes; otherwise adjacent aligned pieces of the whole payload, the last one marked, each within the frame length |
| CapwapRoundTrip.RepeatRejected | ovs/datapath/vport-capwap.c:718-727 | a piece that comes again is rejected and changes nothing |
| CapwapRoundTrip.NewPiece | ovs/datapath/vport-capwap.c:675-745 | a new piece is accepted and gives the queue of the larger set of pieces, whatever their order of arrival |
| CapwapRoundTrip.ReadyWhenAll | ovs/datapath/vport-capwap.c:747-750 | the queue is ready exactly if all pieces are there, and then holds the payload |
| CapwapRoundTrip.Arrival | ovs/datapath/vport-capwap.c:668-761 | what one arrival does, after any set of pieces |
| CapwapRoundTrip.Placed | ovs/datapath/vport-capwap.c:763-783 | masking the offset field loses nothing of a piece's offset |
| CapwapRoundTrip.ReachableAligned | ovs/datapath/vport-capwap.c:691-783 | whatever fragments come, the pieces held start at multiples of 8, and end there unless marked last |
| CapwapRoundTrip.SinceStart | ovs/datapath/vport-capwap.c:601-610 | until all pieces have come together for the first time, the open queue is that of all arrivals |
| CapwapRoundTrip.RoundTrip | ovs/datapath/vport-capwap.c:484-790 | for every order of arrival with any repeats, however often all pieces have come together before: exactly the repeats since then are rejected, the last missing piece completes the packet, and the payload comes out byte for byte |
| CapwapStrangers.LikeItself | ovs/datapath/vport-capwap.c:668-761 | the queue of any set of pieces is one to which the results on foreign fragments apply |
| CapwapStrangers.LikeArrival | ovs/datapath/vport-capwap.c:668-761 | what the arrival of a piece does when the recorded length is ahead of the pieces, but within the payload |
| CapwapStrangers.LikeDelivers | ovs/datapath/vport-capwap.c:668-761 | then the first packet that the missing pieces complete, in any order with any repeats, is the payload |
| CapwapStrangers.SpoiledArrival | ovs/datapath/vport-capwap.c:683-761 | once the last piece can no longer come in, a piece completes a packet that is not the payload, or it still cannot come in |
| CapwapStrangers.SpoiledNotFirst | ovs/datapath/vport-capwap.c:668-761 | then the payload is not the first packet that any sequence of pieces completes |
| CapwapStrangers.StrangerLeaves | ovs/datapath/vport-capwap.c:683-727 | a rejected foreign fragment leaves a queue of the first kind exactly when it is harmless, else one of the second |
| CapwapStrangers.StrangerHarm | ovs/datapath/vport-capwap.c:668-761 | after a rejected foreign fragment the first packet that the missing pieces complete, in any order with any repeats, is the payload exactly if it was turned away on its flags, or is not marked last and ends within the payload |
| CapwapStrangers.StrangerCuts | ovs/datapath/vport-capwap.c:691-750 | a foreign fragment marked last that ends where a piece ends makes the pieces up to there come out as the first packet |
| CapwapStrangers.StuckNeverCompletes | ovs/datapath/vport-capwap.c:668-761 | with a recorded length that no front of the pieces still to be completed has, no sequence of pieces ever completes the queue |
| CapwapStrangers.AfterStranger | ovs/datapath/vport-capwap.c:668-790 | the first packet that the missing pieces complete after a rejected foreign fragment, in each case: the payload, the payload cut short at the fragment's end, or none |
| FlowKey.TableOf | ovs/datapath/flow.c:961-988 | the table built from attributes has each under its own kind |
| FlowKey.TableOfIs | ovs/datapath/flow.c:961-988 | attributes are accepted exactly if none is bad and no kind repeats, and the table holds exactly them, in whatever order they came |
| FlowKey.TunnelAccepted | ovs/datapath/flow.c:990-1054 | a tunnel nest means something exactly if it is not malformed, gives a TTL, and gives last a destination other than 0 |
| FlowKey.LastIs | ovs/datapath/flow.c:994-1040 | of several attributes of a kind in a tunnel the last one counts |
| FlowKey.TypeLeast | ovs/datapath/flow.c:1202-1209 | a frame has a type of at least 0x600 in its attribute, or none and is 802.2 |
| FlowKey.TagBit | ovs/datapath/flow.c:1171-1200 | a TCI is that of a tagged frame exactly if bit 12 is set |
| FlowSpan.NothingBeyond | ovs/datapath/flow.c:1106-1281 | every field beyond the used span of an accepted key is zero |
| FlowSpan.AttrsByNumber | ovs/datapath/flow.c:855-959 | which attributes a key has, by Ethernet type, fragment type, protocol and ICMPv6 type |
| FlowSpan.SpanOfLast | ovs/datapath/flow.c:855-1281 | the used span ends with the last attribute, in each of its seven cases |
| FlowSpan.UsedPartDecides | ovs/datapath/flow.c:784-815 | accepted keys that agree where lookup compares are equal, exactly unless only the stored one has a tunnel |
| FlowSpan.TunnelNotCompared | ovs/datapath/flow.c:784-790 | a key without a tunnel compares equal to the same one with a tunnel |
| FlowFields.TreeSays | ovs/datapath/flow.c:1096-1284 | each attribute of a tree that means a key, also within an encapsulation, gives its fields of the key |
| FlowParse.ParseTable | ovs/datapath/flow.c:961-988 | the loop builds the table, or rejects exactly as specified |
| FlowParse.ParseTunnel | ovs/datapath/flow.c:990-1054 | accepts exactly the tunnel attributes that mean a tunnel, repeats included, and gives it |
| FlowParse.ParseTunnelPart | ovs/datapath/flow.c:1136-1160 | a tunnel ID beside the tunnel must repeat its key; consumes exactly these attributes |
| FlowParse.ParseMeta | ovs/datapath/flow.c:1112-1160 | accepts exactly metadata that mean a priority, mark, port and tunnel, and gives them |
| FlowParse.ParseV4Ports | ovs/datapath/flow.c:855-898 | succeeds with nothing left exactly if the attributes are those of some IPv4 transport fields, and gives these and the used span |
| FlowParse.ParseV6Ports | ovs/datapath/flow.c:900-959 | the same for IPv6, with neighbour discovery |
| FlowParse.ParseV4 | ovs/datapath/flow.c:1211-1233 | the same for the IPv4 header |
| FlowParse.ParseV6 | ovs/datapath/flow.c:1234-1259 | the same for the IPv6 header |
| FlowParse.ParseArp | ovs/datapath/flow.c:1260-1277 | the same for ARP and RARP, whose opcode must fit 8 bits |
| FlowParse.ParseNet | ovs/datapath/flow.c:1211-1277 | the same for any Ethernet type |
| FlowParse.ParseInner | ovs/datapath/flow.c:1202-1281 | accepts exactly the attributes of some type and network fields |
| FlowParse.ParseFrame | ovs/datapath/flow.c:1171-1281 | the same with a VLAN tag around an encapsulation, or a truncated tag |
| FlowParse.FromAttrs | ovs/datapath/flow.c:1096-1284 | accepts a tree exactly if it means a well-formed key, and gives that key and its used span, beyond which all is zero |
| FlowPrint.PrintTunnel | ovs/datapath/flow.c:1056-1087 | writes attributes that mean the tunnel |
| FlowPrint.PrintPorts | ovs/datapath/flow.c:1478-1547 | writes exactly the attributes of the transport fields |
| FlowPrint.PrintNet | ovs/datapath/flow.c:1433-1547 | writes exactly the attributes of the network fields, for any key |
| FlowPrint.PrintInner | ovs/datapath/flow.c:1427-1547 | the same with the Ethernet type |
| FlowPrint.PrintTunnelPart | ovs/datapath/flow.c:1389-1399 | writes attributes that mean the priority and tunnel, and none for defaults |
| FlowPrint.PrintMeta | ovs/datapath/flow.c:1389-1407 | writes attributes that mean the metadata, and none for defaults |
| FlowPrint.PrintTag | ovs/datapath/flow.c:1416-1425 | writes the three attributes of a tag around an encapsulation |
| FlowPrint.PrintFrame | ovs/datapath/flow.c:1416-1551 | writes attributes that mean the tag, type and network fields |
| FlowPrint.ToAttrs | ovs/datapath/flow.c:1384-1556 | writes a well-formed key as a tree that means it, without attributes for defaults |
| FlowPrint.MeansOneKey | ovs/datapath/flow.c:1096-1284 | a tree means at most one key |
| FlowPrint.RoundTrip | ovs/datapath/flow.c:1096-1556 | for every tree: if accepted, its key is well formed and is written, without defaults, as a tree that means it and is accepted again with the same key and span |
| FlowChain.AddHead | ovs/datapath/flow.c:358-364 | puts a flow first on a well-linked chain; the nodes of the other version are not touched |
| FlowChain.Delete | ovs/datapath/flow.c:825-830 | takes a flow off a well-linked chain; the nodes of the other version are not touched |
| FlowTable.FlowTable.constructor | ovs/datapath/flow.c:267-287 | a valid empty table |
| FlowTable.FlowTable.Add | ovs/datapath/flow.c:358-364 | the table stays valid and gains the flow, first on the chain of its hash |
| FlowTable.FlowTable.Insert | ovs/datapath/flow.c:817-823 | the same, and a lookup of the key passes its test on the flow |
| FlowTable.FlowTable.Remove | ovs/datapath/flow.c:825-830 | the table stays valid and loses exactly the flow |
| FlowTable.FlowTable.Lookup | ovs/datapath/flow.c:792-815 | finds a flow of equal hash and bytes, or the whole table holds none |
| FlowTable.FlowTable.Next | ovs/datapath/flow.c:331-356 | from any cursor, the next flow in bucket and chain order, and the cursor for the rest |
| FlowTable.FlowTable.Enumerate | ovs/datapath/flow.c:331-356 | repeated calls give every flow exactly once |
| FlowTable.FlowTable.CopyChain | ovs/datapath/flow.c:379-384 | adds the flows of one chain to the new table; readers see the same links throughout |
| FlowTable.FlowTable.CopyFlows | ovs/datapath/flow.c:366-386 | the new table holds the same flows; every link of the old table is as before |
| FlowTable.FlowTable.Rebuild | ovs/datapath/flow.c:388-399 | a valid new table of the other version with the same flows and count; the old one stays valid with the same links |
| FlowTable.FlowTable.Rehash | ovs/datapath/flow.c:401-404 | the same with as many buckets |
| FlowTable.FlowTable.Expand | ovs/datapath/flow.c:406-409 | the same with twice as many buckets |
| BondLoads.LoadAfterChange | ovs/lib/bond.c:690-714 | how changing one bucket changes a slave's sum |
| BondLoads.TotalAfterMove | ovs/lib/bond.c:690-714 | reassigning a bucket keeps the total |
| BondBalance.InsertBal | ovs/lib/bond.c:761-772 | inserts before the first slave with less load |
| BondBalance.ReinsertBal | ovs/lib/bond.c:776-781 | takes a slave out and inserts it among the others |
| BondBalance.SortSlaves | ovs/lib/bond.c:816-821 | lists the enabled slaves once each by falling load |
| BondBalance.InsertPastStray | ovs/lib/bond.c:851-853 | the slave still out of order does not disturb the first reinsertion |
| BondBalance.Resorted | ovs/lib/bond.c:851-853 | after both reinsertions the list is sorted again, although `to` is out of order during the first |
| BondBalance.ChooseEntryToMigrate | ovs/lib/bond.c:723-757 | the first listed bucket worth moving, or none is, or fewer than two are listed |
| BondChoice.WorthInBytes | ovs/lib/bond.c:735-753 | the ratio test in whole bytes: always met by a slave without load, else exactly if 10d(F+T) > T(T+d), and the distance of F and T+2d times T is below the distance of F and T times T+d |
| BondChoice.CloserLoads | ovs/lib/bond.c:744-752 | a bucket that passes the test brings the loads closer exactly if it is smaller than the overload |
| BondChoice.MoveWidens | ovs/lib/bond.c:744-752 | loads that such a move drives further apart |
| BondChoice.TurnInBytes | ovs/lib/bond.c:824-858 | a turn in bytes: the overload is at least 100000 and a 32nd of the lesser load, and the first listed bucket that passes the test moves, if two are listed |
| BondChoice.HaltedInBytes | ovs/lib/bond.c:824-836 | the loop stops exactly if one slave is left, or the overload is below 100000 or a 32nd of the lesser load |
| BondChoice.IdleSlaveTakesFirst | ovs/lib/bond.c:723-859 | in a complete run, a slave without load gets the first bucket of the most loaded one at once, if that one has two buckets and 100000 bytes |
| BondBalance.ShiftKeeps | ovs/lib/bond.c:690-714 | one shift keeps every slave's sum equal to its buckets, the total, and that only unmoved buckets are listed |
| BondBalance.ResortBoth | ovs/lib/bond.c:851-853 | the two reinsertions give a sorted list of the same slaves |
| BondBalance.ShiftLoads | ovs/lib/bond.c:824-859 | ends, after a run of turns up to the stopping condition; at the head of every turn the list is sorted, sums are those of the buckets and the total is unchanged; load moves only between enabled slaves, and no two turns move one bucket |
| BondBalance.OnceExtends | ovs/lib/bond.c:842-849 | a turn that moves only a bucket not moved before keeps every bucket to one move in the run |
| BondBalance.TakeTurn | ovs/lib/bond.c:825-858 | one turn: the first bucket worth moving goes from the most to the least loaded slave, or the former is dropped; what holds at the loop head is kept and the measure of listed slaves and unmoved buckets falls |
| BondBalance.MoveEntry | ovs/lib/bond.c:842-853 | one move with its two reinsertions keeps all of that |
| BondBalance.Tally | ovs/lib/bond.c:799-810 | each slave's sum and list are those of its buckets |
| BondBalance.Decay | ovs/lib/bond.c:861-869 | halves every load and unassigns buckets without any |
| BondBalance.Rebalance | ovs/lib/bond.c:799-869 | the three phases together, from any assignment of buckets, with the run of turns in the middle one |
| BondLink.NoTimerWhenAgreeing | ovs/lib/bond.c:1285-1318 | after each update no timer is pending exactly if the flag agrees with the signal |
| BondLink.TurnedSignal | ovs/lib/bond.c:1285-1318 | a signal that turns against the flag flips it at once under LACP or without a delay, else arms the timer with the updelay to enable and the downdelay to disable |
| BondLink.PendingTimer | ovs/lib/bond.c:1285-1318 | in any run of updates and early enablings a pending timer was armed at an update since which the signal has always differed from the flag |
| BondLink.FlipNeedsDelay | ovs/lib/bond.c:1285-1318 | in such a run the flag flips only by an early enabling, or if the signal differed from it at every update over at least the delay in force when the timer was armed: the updelay to enable, the downdelay to disable, none under LACP |
| BondLink.LastingSignalFlips | ovs/lib/bond.c:1285-1318 | a signal that differs at every update flips the flag exactly if some update reaches the deadline |
| Bond.RunActs | ovs/lib/bond.c:388-427 | a run does one update to each slave, and enables one early at most if no slave is enabled after the updates; that one becomes active, and is due first of those with a carrier that may be enabled |
| Bond.Bond.constructor | ovs/lib/bond.c:172-187 | a bond without slaves meets the invariant |
| Bond.Bond.EntryReset | ovs/lib/bond.c:1234-1250 | empties all buckets, or has none in active-backup mode |
| Bond.Bond.Register | ovs/lib/bond.c:293-316 | a new slave follows its carrier; a known one is left as it is |
| Bond.Bond.ChooseSlave | ovs/lib/bond.c:1395-1418 | an enabled slave if there is one, else the one due first |
| Bond.Bond.ChooseActiveSlave | ovs/lib/bond.c:1420-1447 | the active slave is enabled, or none can be |
| Bond.Bond.Unregister | ovs/lib/bond.c:336-371 | buckets forget the slave; the active slave stays registered, enabled, and missing only if no slave is enabled; the other slaves are unchanged, but that the one due first may be enabled early when the active one goes |
| Bond.Forget | ovs/lib/bond.c:349-356 | exactly the buckets of the slave are unassigned |
| Bond.Bond.SetMayEnable | ovs/lib/bond.c:378-382 | changes that flag only |
| Bond.Bond.LinkStatusUpdate | ovs/lib/bond.c:1285-1318 | the update in place is the state machine of BondLink; under LACP the flag follows the signal at once |
| Bond.Bond.UpdateLinks | ovs/lib/bond.c:398-402 | every slave gets one update |
| Bond.Bond.EnsureActive | ovs/lib/bond.c:403-405 | a missing or disabled active slave is replaced |
| Bond.Bond.Revalidate | ovs/lib/bond.c:413-422 | the buckets are emptied exactly if the bond is to be revalidated |
| Bond.Bond.Run | ovs/lib/bond.c:388-427 | afterwards the active slave is enabled, and missing only if no slave has its carrier and may be enabled; flags changed only by link updates or the no-slave fast path |
| Bond.Bond.ChooseOutputSlave | ovs/lib/bond.c:1355-1393 | in a usable mode an enabled slave whenever there is one; a bucket with an enabled slave keeps it, another one gets the slave returned |
| Bond.Bond.Account | ovs/lib/bond.c:638-645 | adds the bytes to the bucket when balancing is on |
| Bond.Bond.Rebalance | ovs/lib/bond.c:787-870 | runs only when due; the buckets are those at the end of a complete run of turns, halved; links, the invariant and the choice of active slave are kept |
| Actions.PopUndoesPush | ovs/datapath/actions.c:79-126 | pushing puts one tag in front of those on the wire; exactly when popping it leaves the others as they were, and exactly when it gives the same packet |
| Actions.PopTakesOuter | ovs/datapath/actions.c:79-107 | popping takes the outermost tag on the wire, out of band or in the frame, and leaves the next one out of band without bit 0x1000; without a tag nothing changes |
| Actions.PopLosesBit | ovs/datapath/actions.c:98-105 | a packet whose tag in the frame loses bit 0x1000 when a pushed tag is popped |
| Actions.ExecAllConcat | ovs/datapath/actions.c:487-551 | executing two lists in turn, with errors |
| Actions.DrawsAgainstOdds | ovs/datapath/actions.c:409-421 | a sample goes ahead exactly if every number drawn is below its probability, and draws up to the first one that is not |
| Actions.SampleRuns | ovs/datapath/actions.c:401-425 | then its last list of actions runs; otherwise only draws are used up |
| Actions.ExecAllAdds | ovs/datapath/actions.c:487-551 | actions only add to what was sent, and what they add does not depend on it |
| Actions.EditFails | ovs/datapath/actions.c:487-551 | after an edit that fails nothing more is done, and what was sent before stays sent |
| Actions.SamePort | ovs/datapath/actions.c:356-371 | holding a port number in an int loses no port, and -1 names none |
| Actions.Datapath.DoOutput | ovs/datapath/actions.c:356-371 | sends to an existing port, else drops |
| Actions.Datapath.DoSample | ovs/datapath/actions.c:401-425 | the nested list runs or not as in the plain interpreter, with the same draws |
| Actions.Datapath.DoExecuteActions | ovs/datapath/actions.c:487-551 | for every list with nested samples, the same packets, upcalls and result as an interpreter that sends a copy at each output, also when a later action fails |
| Csum.OnesSumFolds | ovs/lib/csum.c:58-70 | the one's-complement sum is the plain sum folded |
| Csum.CsumFinish | ovs/lib/csum.c:79-86 | the complement of the folded sum |
| Csum.CsumContinue | ovs/lib/csum.c:58-70 | adds the words of the data, an odd byte included, modulo 2^32 |
| Csum.CsumOf | ovs/lib/csum.c:29-33 | for up to 65537 words, the complement of the one's-complement sum |
| Csum.RecalcCsum16 | ovs/lib/csum.c:91-103 | one step of the incremental update |
| Csum.RecalcCsum32 | ovs/lib/csum.c:108-113 | the update for the two halves of a field |
| Csum.RecalcCsum128 | ovs/lib/csum.c:118-129 | the update for the eight halves of four fields |
| Csum.RecalcRepresents | ovs/lib/csum.c:91-103 | an update gives a checksum of the changed sum, and never 0xffff |
| Csum.IncrementalUpdate | ovs/lib/csum.c:91-129 | the updated checksum equals the recomputed one exactly if the changed data are not all zero |
| Csum.UpdateToZero | ovs/lib/csum.c:91-103 | one word set to zero: the update gives 0 where the recomputed checksum is 0xffff |
| Cfm.Cfm.constructor | ovs/lib/cfm.c:289-304 | a new instance knows no remote maintenance point and has no fault |
| Cfm.Cfm.ProcessHeartbeat | ovs/lib/cfm.c:549-667 | which messages are taken in, exactly which faults they raise, and the record they leave: up exactly unless the CCM is extended and says down; no other record changes |
| Cfm.Cfm.TakeIn | ovs/lib/cfm.c:584-666 | the record and the faults of a CCM, for known, new and refused MPIDs |
| Cfm.Cfm.Run | ovs/lib/cfm.c:328-415 | after a fault check the table and its array list exactly the points heard of since the last check; RECV is set exactly if there is none; the remote end is up exactly if no point kept is down; health and counters as specified; before the timer expires nothing changes |
| Cfm.Cfm.FaultCheck | ovs/lib/cfm.c:333-397 | one fault check: the table, its array, the faults and the operational state after it |
| Cfm.Cfm.ComputeHealth | ovs/lib/cfm.c:345-374 | health is the capped percentage of CCMs of a single remote point, -1 with several, 0 with none; taken at every sixth check only |
| Cfm.Percent | ovs/lib/cfm.c:360-369 | a percentage, 100 exactly from 3.5 CCMs per interval on |
| Cfm.Heeded | ovs/lib/cfm.c:376-393 | keeps exactly the points heard of, lists them, and tells whether all are up |
| Cfm.Cfm.Sweep | ovs/lib/cfm.c:376-393 | forgets exactly the silent points and lists the others |
| Cfm.DownByLast | ovs/lib/cfm.c:328-667 | in every run a known point is taken to be down exactly if its last CCM said so |
| Cfm.DownAfterCheck | ovs/lib/cfm.c:374-390 | a check finds the remote end down exactly if the last CCM of some point it keeps said so |
| Cfm.TableBounded | ovs/lib/cfm.c:328-415 | in every run at most 256 points are known |
| Cfm.Listening | ovs/lib/cfm.c:549-667 | between checks nothing is forgotten, no more is known than was sent, and all of it if there is room |
| Cfm.ListeningExact | ovs/lib/cfm.c:549-667 | between checks exactly those senders are taken in that are known or heard while there is room; with too many the table is full |
| Cfm.TableAfterChecks | ovs/lib/cfm.c:328-415 | whatever came before, after two checks the table holds exactly the MPIDs taken in between; a silent peer survives one check and goes at the next |
| AfxTime.Compare | lib/afx/afx_evtlp.c:79-81 | the comparison by seconds, then microseconds, is that of the times |
| AfxTime.AddTimeout | lib/afx/afx_evtlp.c:127-135 | exactly the timeout later, with the microseconds in range |
| AfxTime.PollTimeout | lib/afx/afx_evtlp.c:119-124 | the whole milliseconds left |
| AfxList.InsertTail | lib/afx/afx_list.h:59-66 | the list stays well linked with the node last |
| AfxList.InsertBefore | lib/afx/afx_list.h:79-87 | the list stays well linked with the node in front of the other |
| AfxList.Delete | lib/afx/afx_list.h:119-127 | the list stays well linked without the node |
| AfxTimer.DeadlineExact | lib/afx/afx_evtlp.c:127-137 | the k-th deadline is the start plus k times the timeout: no drift |
| AfxTimer.EventLoop.Create | lib/afx/afx_evtlp.c:278-293 | a new timer is off |
| AfxTimer.EventLoop.Start | lib/afx/afx_evtlp.c:302-325 | the invariant is kept; a timer that is off goes on the list behind all that are due no later, one that is on is refused; other timers do not change |
| AfxTimer.EventLoop.Stop | lib/afx/afx_evtlp.c:327-334 | the invariant is kept; a timer that is on leaves the list, one that is off is refused |
| AfxTimer.EventLoop.Insert | lib/afx/afx_evtlp.c:70-93 | the list stays well linked and sorted, with the timer behind all that are due no later |
| AfxTimer.EventLoop.FindLater | lib/afx/afx_evtlp.c:76-87 | the first timer due later, or none is |
| AfxTimer.EventLoop.Expire | lib/afx/afx_evtlp.c:106-141 | a callback runs exactly if a timer is due; it is the one due first, at its exact k-th deadline; no timer fires early and fired deadlines never fall; the poll timeout is exact to the millisecond |
| AfxTimer.EventLoop.RunTimers | lib/afx/afx_evtlp.c:109-141 | if no callback starts or stops a timer, while the clock stands still the loop ends exactly if no timer that is due has timeout 0, and then after exactly as many turns as deadlines are due |
| AfxTimer.EventLoop.StartAtZero | lib/afx/afx_evtlp.c:106-141 | a timer started with timeout 0, which no callback stops, keeps the loop from poll for any number of turns |
| AfxTimer.EventLoop.Turn | lib/afx/afx_evtlp.c:109-141 | one turn takes one due deadline off those to come, and a due timer with timeout 0 stays due |
| AfxTimer.EventLoop.Fire | lib/afx/afx_evtlp.c:127-139 | one firing: the next deadline is exactly one timeout later, and the timer goes behind all that are due no later |

## Left out

- Memory of packets, cloning, reference counts, RCU grace periods, netlink sockets and allocation failure: packets are values and allocation succeeds.
- Wrap-around of load counters, timers and sequence numbers: they are unbounded integers.
- The buckets of the `hmap` dictionaries: a dictionary with any iteration order stands for them.
- Updating a table of the classifier, a slave, a bucket or a remote maintenance point in place: these are records in a dictionary or sequence of the object that owns them, so aliasing between them is not modelled.
- Bond tags, learning packets, manual commands and all other `unixctl` commands, logging and coverage counters.
- The floating-point rounding of the ratio test of `choose_entry_to_migrate`: it is over reals.
- The contents of `set` actions: an edit is any function of the packet that may fail.  The loop counter of nested execution is not part of this model.
- Actions.Datapath.DoSample: takes a sample without an action list as done, where the code would dereference a null pointer; the checks on action lists before they are installed exclude such samples and are not part of this model.
- CapwapRoundTrip.RoundTrip: states nothing of payloads with a piece at offset 65536 or beyond, because such offsets do not fit the 16-bit field.
- Csum.CsumOf: states nothing of more than 65537 words, because their sum need not fit 32 bits.
- Timeouts and eviction of reassembly queues, and the demultiplexing of packets to queues.
- ovs_flow_extract, and whether it agrees with the parser on the used span of a key.
- FlowTable.FlowTable.Lookup: decides the test of equal hash and equal bytes on keys as byte strings; that the compared part decides the whole key is proved of the fields (FlowSpan.UsedPartDecides), because the byte layout of a key is not part of this model.
- The overlay of the IPv4 and IPv6 fields of a flow key: they are two records, of which the unused one is zero.
- Cfm.Cfm.ProcessHeartbeat: states nothing of overflow reports and of loopback detection on the first CCM of a maintenance point, because the code does not record them.
- Transmission of CCMs, and the demand and extended modes beyond the MPID they use.
- Destroying timers, and the I/O multiplexing of the event loop.
- The remaining repository: easier members that would not add to the properties above.

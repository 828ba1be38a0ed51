# OVNIS, modelled and proved in Dafny

OVNIS couples a road traffic simulator to a network simulator. These modules model the parts of it
that carry invariants, in the form the C++ has them: objects whose methods update fields, loops over
vectors and maps, byte buffers with a cursor. Each method is proved against a function of its inputs
or of the old state, and the properties of the system are proved about those functions, over all
inputs and over all runs.

`double` is modelled as a real number (as a 64-bit image where only its bytes matter), simulator time
as a real number, `std::map` as a map visited in an arbitrary order. Where 32-bit or 8-bit width
matters it is written out. Answers of the traffic simulator, random draws, library functions and the
pieces in which a byte stream delivers its data are parameters or arbitrary choices.

| file | subject |
|---|---|
| `WifiChannel.dfy` | the cell grid that replaces a scan of all radios |
| `Lifecycle.dfy` | the lists of running, departed and arrived vehicles, in lockstep with the channel |
| `PacketLossCounter.dfy` | a ring of bits that counts packets never received |
| `Gossip.dfy` | records of edges exchanged between vehicles |
| `ErrorRateModel.dfy` | factorials in 32 bits, binomial tails, chunk success rates |
| `CodeRates.dfy` | what the constants of the chunk success rates mean |
| `OnOffSource.dfy` | the on/off traffic source and its residual bits |
| `PhyReceive.dfy` | the receive lock of the radio |
| `RouteEstimate.dfy`, `RouteChoice.dfy` | travel time estimates; probabilities, draws, cheapest route |
| `Timeline.dfy` | when a vehicle was on which edge |
| `WireFormat.dfy` | bytes, fields and their round trips, used by the next five |
| `TraciStorage.dfy`, `TraciSocket.dfy`, `TraciCommands.dfy`, `TraciResponses.dfy` | buffer, framing, commands and answers of the traffic simulator protocol |
| `OvnisPacket.dfy` | packets between vehicles |
| `BeaconTable.dfy` | the neighbour table of the beaconing MAC |
| `TraceSender.dfy` | the sender that plays a video trace |
| `Collections.dfy` | shared notions about sequences |

## Where the code does less than it seems to

Each point is proved, with the exact condition under which the code does what is wanted; where the
condition is over whole runs, a run that fails is given too.

- `Add` after `Remove` of the same radio leaves it stored in no cell exactly when it stands in the
  cell it was removed from (`WifiChannel.OvnisWifiChannel.Add`, `RemoveAndAddAgain`).
- Truncation toward zero merges the strip below zero into the first cell: from there a radio two
  ranges away along an axis is still reached, exactly when it is less than two ranges above zero
  (`FarIndicesIff`, `NeighboursAreClose`).
- `updateArea` leaves exactly the cells the new area asks for if and only if the number of columns
  (cells along x) does not shrink and, when it stays the same, the number of cells along y does not
  shrink either. What a shrink leaves over makes a later call give cells wrong column numbers, exactly
  when rows longer than recorded have to grow; wrong numbers stay wrong as long as their cells are
  kept (`UpdateArea`, `MisnumberedIff`, `NumberedIff`, `Misnumber`). No member is lost by it, but
  `Send` goes by those numbers: it covers a scan exactly when nobody in range lies beyond the column
  after the number of the sender's cell (`Send`), and may miss a radio at the sender's own place
  (`MissTheNearest`).
- A packet older than the window breaks the loss count exactly unless it was known and shares its
  slot with a number whose bit is set (`NotifyExactIff`, `LateArrivalBreaksTheCount`).
- A first record with a negative date leaves an entry without a value (`RecordSummarizesIff`).
- Thirty-two bits hold factorials up to 12 and no further; the coefficients of a row, and already
  those in use for a distance, are all right exactly up to 12 (`FactorialExactIff`, `RowIsRightIff`,
  `UsedAreRightIff`), and beyond 33 the source divides by zero (`DivisorsNotZeroIff`, `CalculatePd`).
- The sum for an error event stops short of its last term: it lacks exactly the case in which all
  bits are wrong (`PdLacksAllWrong`).
- A channel request made outside time zero, for a change that takes time, leads to a failed
  assertion, once what is pending has run, exactly when the radio is switching or another change is
  already pending (`RequestIsSafeIff`): two requests during one transmission
  (`SecondRequestInTransmission`), or a request when the first change is due
  (`SecondRequestAtTheEnd`).
- A packet locked at time zero may be received on another channel, exactly when the last channel set
  at time zero after it was locked is another one (`ReceivedOnOneChannelIff`, `RetunedAtTimeZero`).
- A stale measurement is used as fresh for every route after the one on which it was found stale
  (`StaleMeasurementRevives`, `UsesExactlyFreshUnlessRevived`).
- Route probabilities form a distribution exactly for two or more routes that all cost something, or
  two of which one is free (`DistributionIff`).
- A new route that does not start at the current edge leaves a gap in the timeline
  (`ContiguousAfterRoute`), and so does entering an edge a second time (`ContiguousAfterEdge`).
- The value of a refused or unknown variable of a step response is left unread, and what follows is
  read from there: the response is read right whatever that value is exactly when nothing follows
  (`UnreadIsHarmlessIff`).
- An empty payload is framed by the sender and refused by the receiver (`FramesRoundTrip`).
- A silent neighbour at zero survives an own beacon exactly when enough of the others at zero come
  later in the visiting order (`SurvivesIff`, `SilentStaysIff`); for every N it may stay for ever
  while others keep expiring and coming back (`SilentNeighbourMayStay`).

## Model

| member | source | states |
|---|---|---|
| WifiChannel.NearIndices | src/devices/wifi/ovnis-wifi-channel.cc:105-131 | coordinates at most one range apart truncate to the same or to neighbouring indices |
| WifiChannel.FarIndicesIff | src/devices/wifi/ovnis-wifi-channel.cc:105-131 | legal coordinates two ranges apart truncate to indices at least two apart if and only if the lower one is not below zero or the upper one is two ranges above zero |
| WifiChannel.AxisGap | src/devices/wifi/ovnis-wifi-channel.cc:105-131 | the same for either order of the coordinates: neighbouring indices exactly when they are not far apart |
| WifiChannel.LegalIndexIff | src/devices/wifi/ovnis-wifi-channel.cc:223-292 | a coordinate has a legal index exactly when it is above minus one range and below the end of the grid |
| WifiChannel.CeilingIff | src/devices/wifi/ovnis-wifi-channel.cc:298-301 | the number of cells counted for a length is the least whose ranges cover it |
| WifiChannel.OvnisWifiChannel.constructor | src/devices/wifi/ovnis-wifi-channel.cc:65-74 | a new channel has no members, area and range one, and an exact grid in order |
| WifiChannel.OvnisWifiChannel.UpdatePhy | src/devices/wifi/ovnis-wifi-channel.cc:223-292 | the radio leaves its old cell and enters the cell of its position; it is listed there once unless it already was in that cell without being listed |
| WifiChannel.OvnisWifiChannel.MovePhy | src/devices/wifi/ovnis-wifi-channel.cc:223-292 | moving a member keeps every member in exactly its home cell |
| WifiChannel.OvnisWifiChannel.Add | src/devices/wifi/ovnis-wifi-channel.cc:378-384 | the radio joins the list; it is stored exactly when its recorded cell was not already the one of its position |
| WifiChannel.OvnisWifiChannel.RemoveAndAddAgain | src/devices/wifi/ovnis-wifi-channel.cc:378-403 | a member taken off and put back where it stands is in no cell |
| WifiChannel.OvnisWifiChannel.Remove | src/devices/wifi/ovnis-wifi-channel.cc:386-403 | the radio leaves list and cell and keeps its recorded cell; everyone else stays in their home cell |
| WifiChannel.OvnisWifiChannel.CloseMembersAreNeighbours | src/devices/wifi/ovnis-wifi-channel.cc:93-148 | members within one range of each other sit in neighbouring cells |
| WifiChannel.OvnisWifiChannel.NeighboursAreClose | src/devices/wifi/ovnis-wifi-channel.cc:93-148 | members in neighbouring cells are not far apart along either axis; members two ranges apart along both are neighbours exactly across the strip below zero |
| WifiChannel.OvnisWifiChannel.DeliveryRefinesScan | src/devices/wifi/ovnis-wifi-channel.cc:93-148 | delivery to the 3x3 block around the numbers of the sender's cell reaches every listener a full scan finds in range if and only if none of them lies beyond the column after that number; with right numbers it always does, and reaches none far apart along an axis |
| WifiChannel.OvnisWifiChannel.Send | src/devices/wifi/ovnis-wifi-channel.cc:93-148 | the nested loops deliver once each to exactly the same-channel members of that block other than the sender, whatever numbers the cells carry; when they cover the scan |
| WifiChannel.OvnisWifiChannel.Grow | src/devices/wifi/ovnis-wifi-channel.cc:305-337 | growing keeps the old cells in place; which rows become how long, and which coordinates the fresh cells carry, on a grid that may be larger than recorded |
| WifiChannel.OvnisWifiChannel.MisnumberedIff | src/devices/wifi/ovnis-wifi-channel.cc:307-331 | a fresh cell among those kept carries a wrong number if and only if rows longer than recorded have to grow |
| WifiChannel.OvnisWifiChannel.NumberedIff | src/devices/wifi/ovnis-wifi-channel.cc:295-364 | all numbers are right after regridding if and only if the old cells kept have right ones and no such row had to grow |
| WifiChannel.OvnisWifiChannel.CoverIff | src/devices/wifi/ovnis-wifi-channel.cc:295-364 | a grid covers its area, or is exact, in terms of coordinates if and only if in terms of counted cells |
| WifiChannel.OvnisWifiChannel.InsideHasCell | src/devices/wifi/ovnis-wifi-channel.cc:295-364 | on a grid that covers its area every position above minus one range and below the area's end has a cell |
| WifiChannel.OvnisWifiChannel.RehomeAll | src/devices/wifi/ovnis-wifi-channel.cc:338-341 | every member is moved to the home cell of its position under the new range |
| WifiChannel.OvnisWifiChannel.Trim | src/devices/wifi/ovnis-wifi-channel.cc:342-364 | the trimming loops cut to a rectangle of old prefixes and lose no member |
| WifiChannel.OvnisWifiChannel.UpdateArea | src/devices/wifi/ovnis-wifi-channel.cc:295-364 | from any grid that covers its recorded area, whatever numbers earlier calls left: members are kept in their new home cells and none is lost; every position inside the new area has a cell; the final dimensions; which cells are the old ones and what number every fresh one gets; when the grid is exact and when all numbers are right, both as if and only if |
| WifiChannel.Misnumber | src/devices/wifi/ovnis-wifi-channel.cc:295-364 | three calls (three columns, one, five) after which the grid is exact and a cell of column three carries number one |
| WifiChannel.MissTheNearest | src/devices/wifi/ovnis-wifi-channel.cc:93-148 | on that grid a radio does not reach another one of its channel at the very same place |
| Lifecycle.PassingStep | src/ovnis.cpp:589-605 | one turn of the first loop: a vehicle that departs and arrives in one step leaves both lists |
| Lifecycle.ListsAfterStep | src/ovnis.cpp:589-638 | after a step the lists are disjoint, without duplicates, and hold what was there minus what arrived |
| Lifecycle.HoldsAfterAdding | src/ovnis.cpp:402-414 | adding a new node's radio makes the channel hold exactly one vehicle more |
| Lifecycle.HoldsAfterErasing | src/ovnis.cpp:416-460 | removing it makes the channel hold exactly that vehicle less |
| Lifecycle.BothLoopsReach | src/ovnis.cpp:695-703 | the two position loops bring every listed vehicle whose reported coordinates are positive there and move no other |
| Lifecycle.Ovnis.CreateNetworkDevices | src/ovnis.cpp:402-414 | every departed vehicle gets a fresh radio on the channel |
| Lifecycle.Ovnis.DestroyNetworkDevices | src/ovnis.cpp:416-460 | exactly the radios of the named vehicles leave the channel |
| Lifecycle.Ovnis.UpdateInOutVehicles | src/ovnis.cpp:589-638 | both lists after the step, and the channel holds exactly the radios of their vehicles |
| Lifecycle.Ovnis.UpdateNodePosition | src/ovnis.cpp:670-693 | a positive position moves the radio to its home cell, any other is ignored |
| Lifecycle.Ovnis.UpdateVehiclesPositions | src/ovnis.cpp:695-703 | positions after both loops, channel in order |
| Lifecycle.Ovnis.BeginStep | src/ovnis.cpp:715-757 | yesterday's departures join the running list before the temporary lists are refilled |
| Lifecycle.Ovnis.TrafficSimulationStep | src/ovnis.cpp:715-757 | after every step running and departed vehicles are disjoint and are those inserted and not arrived; the channel's radios are theirs; reported positions are in effect; the last step takes the running ones off |
| PacketLossCounter.WithBitChangesOneBit | src/applications/model/packet-loss-counter.cc:79-89 | masking a byte changes one bit and no other |
| PacketLossCounter.BitsWithBit | src/applications/model/packet-loss-counter.cc:79-100 | masking one byte of the map is updating one slot of the ring |
| PacketLossCounter.ExactSlide | src/applications/model/packet-loss-counter.cc:104-120 | the sliding loop keeps bits and counter exact |
| PacketLossCounter.NotifyExactIff | src/applications/model/packet-loss-counter.cc:104-120 | an arrival keeps bits and counter exact if and only if it is inside the window, or known and sharing a set slot |
| PacketLossCounter.RunIsExact | src/applications/model/packet-loss-counter.cc:104-120 | over any sequence of arrivals inside the window bits and counter stay exact |
| PacketLossCounter.LostCountsMissing | src/applications/model/packet-loss-counter.cc:104-120 | the counter is the number of packets below the window never received |
| PacketLossCounter.ResultDependsOnSetOnly | src/applications/model/packet-loss-counter.cc:104-120 | order and repetition of arrivals do not matter |
| PacketLossCounter.LateArrivalBreaksTheCount | src/applications/model/packet-loss-counter.cc:104-120 | an arrival below the window leaves a received packet counted as lost |
| PacketLossCounter.PacketLossCounter.constructor | src/applications/model/packet-loss-counter.cc:32-39 | a fresh counter is exact for an empty history |
| PacketLossCounter.PacketLossCounter.SetBitMapSize | src/applications/model/packet-loss-counter.cc:53-64 | resizing forgets the window and keeps the counters |
| PacketLossCounter.PacketLossCounter.GetBit | src/applications/model/packet-loss-counter.cc:73-76 | reads the slot of the sequence number |
| PacketLossCounter.PacketLossCounter.SetBit | src/applications/model/packet-loss-counter.cc:79-100 | sets or clears that slot and no other |
| PacketLossCounter.PacketLossCounter.NotifyReceived | src/applications/model/packet-loss-counter.cc:104-120 | the byte array follows the ring specification and stays exact in precisely the cases above |
| Gossip.RecordEntry.Add | src/recordEntry.cpp:77-103 | appends date and value to the parallel history |
| Gossip.EntryTakesIff | src/recordEntry.cpp:77-103 | a sample is taken exactly when its date is not negative and later than the last one |
| Gossip.Knowledge.Record | src/knowledge.cpp:51-60 | stores a record only when it is newer than the latest one of its edge |
| Gossip.Knowledge.RecordAll | src/knowledge.cpp:62-66 | the same for a list, in order |
| Gossip.GetTrafficInformationToSend | src/applications/dissemination/dissemination.cpp:27-62 | the latest sample of every known edge asked for, in the order asked, and as many records as such edges |
| Gossip.SentCount | src/applications/dissemination/dissemination.cpp:27-62 | as many records are sent as requested edges are known |
| Gossip.SentInOrder | src/applications/dissemination/dissemination.cpp:27-62 | the last sample of a known edge stands behind those of the known edges asked for before it |
| Gossip.RecordSummarizesIff | src/knowledge.cpp:51-60 | the store keeps the latest of what was heard if and only if the date is not negative or the edge is known |
| Gossip.RecordAllSummarizes | src/knowledge.cpp:62-66 | the same over a delivered list |
| Gossip.RecordNeverGoesBack | src/knowledge.cpp:51-60 | a latest date never decreases |
| Gossip.StepKeepsSafe | src/applications/dissemination/dissemination.cpp:27-62 | observing, sending, delivering, losing and repeating messages keep the network safe |
| Gossip.RunKeepsSafe | src/applications/dissemination/dissemination.cpp:27-62 | safety over every run |
| Gossip.LatestNeverGoesBack | src/recordEntry.cpp:309-315 | over every run no vehicle's latest date for an edge goes back |
| Gossip.LatestIsGreatestHeard | src/recordEntry.cpp:259-265 | a vehicle's latest record has the greatest date it heard, and every stored pair was really observed |
| Gossip.KnowledgeSpreads | src/applications/dissemination/dissemination.cpp:27-62 | whoever receives a packet, however much later, knows every edge asked for that the sender knew, with a record at least as late, and keeps knowing it |
| Gossip.SameMaximaAgree | src/knowledge.cpp:51-66 | vehicles that heard the same greatest date hold the same record |
| ErrorRateModel.Factorial | src/devices/wifi/ovnis-error-rate-model.cc:78-87 | the loop computes the factorial wrapped at 32 bits |
| ErrorRateModel.FactorialExactIff | src/devices/wifi/ovnis-error-rate-model.cc:78-87 | nothing wraps if and only if the argument is at most 12 |
| ErrorRateModel.ChooseFactorial | src/devices/wifi/ovnis-error-rate-model.cc:89-93 | Pascal's triangle and factorials agree, so the division is exact |
| ErrorRateModel.CoefficientExact | src/devices/wifi/ovnis-error-rate-model.cc:89-93 | up to 12 the 32-bit quotient is the binomial coefficient |
| ErrorRateModel.RowIsRightIff | src/devices/wifi/ovnis-error-rate-model.cc:89-93 | all quotients of a row can be computed and are its binomial coefficients if and only if the row is at most 12 |
| ErrorRateModel.UsedAreRightIff | src/devices/wifi/ovnis-error-rate-model.cc:95-124 | the same for the coefficients a distance makes use of |
| ErrorRateModel.DivisorsNotZeroIff | src/devices/wifi/ovnis-error-rate-model.cc:89-93 | no division by zero among them if and only if the distance is at most 33 |
| ErrorRateModel.WrappedToNothing | src/devices/wifi/ovnis-error-rate-model.cc:78-87 | the 32-bit factorial is zero exactly from 34 on |
| ErrorRateModel.TermsSumToOne | src/devices/wifi/ovnis-error-rate-model.cc:89-93 | the binomial terms add up to one |
| ErrorRateModel.TailMirror | src/devices/wifi/ovnis-error-rate-model.cc:95-124 | an upper tail weighs at most its mirror image when the error rate is at most one half |
| ErrorRateModel.CalculatePdOdd | src/devices/wifi/ovnis-error-rate-model.cc:95-107 | the loop adds up the 32-bit terms of the upper tail, and traps exactly beyond 33 |
| ErrorRateModel.CalculatePdEven | src/devices/wifi/ovnis-error-rate-model.cc:109-124 | the same with half the middle term |
| ErrorRateModel.CalculatePd | src/devices/wifi/ovnis-error-rate-model.cc:126-138 | for any distance: the sum of the 32-bit terms up to 33, division by zero beyond; up to 12 the right tail, in [0, 1/2] for error rates in [0, 1/2] |
| ErrorRateModel.PdAtMostHalf | src/devices/wifi/ovnis-error-rate-model.cc:126-138 | the tail lies in [0, 1/2] for any distance |
| ErrorRateModel.BpskBerAtMostHalf | src/devices/wifi/ovnis-error-rate-model.cc:58-65 | the BPSK error rate lies in [0, 1/2] |
| ErrorRateModel.QamBerAtMostHalf | src/devices/wifi/ovnis-error-rate-model.cc:67-76 | so does the QAM error rate for 4, 16 and 64 points |
| ErrorRateModel.FecBpskSplits | src/devices/wifi/ovnis-error-rate-model.cc:141-156 | the coded BPSK success rate is a probability, multiplies over the parts of a chunk and never grows |
| ErrorRateModel.FecQamSplits | src/devices/wifi/ovnis-error-rate-model.cc:158-178 | so does the coded QAM success rate |
| ErrorRateModel.ChunkSplits | src/devices/wifi/ovnis-error-rate-model.cc:181-306 | and the chunk success rate in every mode but DSSS |
| CodeRates.TailIsAtLeast | src/devices/wifi/ovnis-error-rate-model.cc:89-93 | a binomial tail is the probability of at least so many wrong bits, counted one bit at a time |
| CodeRates.PdLacksAllWrong | src/devices/wifi/ovnis-error-rate-model.cc:95-138 | the computed probability and that of all bits wrong add up to that of more than half wrong and half of a tie |
| CodeRates.ChunkIsPower | src/devices/wifi/ovnis-error-rate-model.cc:181-306 | in every OFDM mode the success rate of a chunk is that of one bit to the power of its length; that of one bit is one minus a polynomial in the bit error rate, both written out for every constellation and code |
| CodeRates.OtherModesFail | src/devices/wifi/ovnis-error-rate-model.cc:181-306 | in any other mode the rate is zero, but for the four DSSS rates |
| CodeRates.FewerEvents | src/devices/wifi/ovnis-error-rate-model.cc:141-178 | the stronger code of a constellation has fewer expected error events, unless the weaker one's reach one |
| CodeRates.StrongerCodeIsBetterIff | src/devices/wifi/ovnis-error-rate-model.cc:181-306 | of two modes of one constellation the stronger code is never worse, and strictly better if and only if its success rate is neither zero nor one |
| OnOffSource.CancelConserves | src/applications/model/onoff-application.cc:170-184 | cancelling moves the bits earned so far to the residue and loses less than one |
| OnOffSource.ScheduleConserves | src/applications/model/onoff-application.cc:203-221 | the residue never exceeds a packet, so the subtraction never underflows |
| OnOffSource.SendPacketConserves | src/applications/model/onoff-application.cc:242-272 | sending turns the bits in flight into one packet |
| OnOffSource.RunConserves | src/applications/model/onoff-application.cc:134-272 | the books balance over every run of starts, stops, sends and restarts |
| OnOffSource.BitsAccountedFor | src/applications/model/onoff-application.cc:134-272 | rate times pending time exceeds the bits accounted for by nothing without cancellations and by less than one bit for each; the residue never exceeds a packet; totals stay below the limit plus one packet |
| OnOffSource.OnPeriodBegins | src/applications/model/onoff-application.cc:186-240 | when the end of an on period and its first packet are due |
| OnOffSource.OffPeriodBegins | src/applications/model/onoff-application.cc:170-201 | when the end of an off period is due, and what an interrupted packet leaves |
| OnOffSource.PacketGoesOut | src/applications/model/onoff-application.cc:242-272 | when the next packet is due, or that nothing is at the limit |
| OnOffSource.StopLeavesNothing | src/applications/model/onoff-application.cc:155-168 | stopping leaves nothing scheduled |
| OnOffSource.OnPeriodLasts | src/applications/model/onoff-application.cc:186-272 | whatever is sent meanwhile, an on period ends when its interval is over and not otherwise, unless the limit is reached |
| OnOffSource.OffPeriodLasts | src/applications/model/onoff-application.cc:186-272 | nothing is sent during an off period, and it ends when its interval is over |
| OnOffSource.OnOffApplication.CancelEvents | src/applications/model/onoff-application.cc:170-184 | the fields after cancelling |
| OnOffSource.OnOffApplication.ScheduleNextTx | src/applications/model/onoff-application.cc:203-221 | the fields after scheduling, or after stopping at the limit |
| OnOffSource.OnOffApplication.StartSending | src/applications/model/onoff-application.cc:186-192 | the fields after an on period begins |
| OnOffSource.OnOffApplication.StopSending | src/applications/model/onoff-application.cc:194-201 | the fields after an on period ends |
| OnOffSource.OnOffApplication.StopApplication | src/applications/model/onoff-application.cc:155-168 | the fields after the application stops |
| OnOffSource.OnOffApplication.SendPacket | src/applications/model/onoff-application.cc:242-272 | one packet is sent and the next one scheduled |
| PhyReceive.AssertionsNeverFail | src/devices/wifi/ovnis-wifi-phy.cc:335-520 | no assertion of the handlers fails in a consistent state |
| PhyReceive.ArrivalLocksIff | src/devices/wifi/ovnis-wifi-phy.cc:405-519 | a packet is received if and only if it is above the threshold and the radio neither transmits nor receives nor switches; when its end is due; otherwise by when the medium counts as busy |
| PhyReceive.TransmissionCuts | src/devices/wifi/ovnis-wifi-phy.cc:521-544 | a transmission ends after its duration and cuts the packet being received, no other |
| PhyReceive.RequestSwitches | src/devices/wifi/ovnis-wifi-phy.cc:335-380 | which channel the radio is on after a request, until when it is deaf, what waits and what is cut, in each situation |
| PhyReceive.PostponedTakesEffect | src/devices/wifi/ovnis-wifi-phy.cc:352-355 | a request made during a transmission switches the channel at its end |
| PhyReceive.EndSettles | src/devices/wifi/ovnis-wifi-phy.cc:848-877 | the end of a reception frees the radio and settles the fate of its packet alone |
| PhyReceive.HandleKeepsConsistent | src/devices/wifi/ovnis-wifi-phy.cc:335-544 | every handler keeps receiving and the pending end event together |
| PhyReceive.FateIsFinal | src/devices/wifi/ovnis-wifi-phy.cc:405-520 | dropped and ended packets keep their fate, a locked one ends once |
| PhyReceive.RunKeepsConsistent | src/devices/wifi/ovnis-wifi-phy.cc:335-544 | both over every interleaving |
| PhyReceive.ReceiveLockHolds | src/devices/wifi/ovnis-wifi-phy.cc:405-520 | from the start: receiving if and only if one end event is pending, no assertion fails, at most one packet is locked, all others have one final fate |
| PhyReceive.ReceivedOnOneChannelIff | src/devices/wifi/ovnis-wifi-phy.cc:335-380 | a packet received to its end was received on one channel if and only if no channel was set at time zero after its lock, or the last one set was its own |
| PhyReceive.RetunedAtTimeZero | src/devices/wifi/ovnis-wifi-phy.cc:335-343 | a run in which it was not |
| PhyReceive.RequestIsSafeIff | src/devices/wifi/ovnis-wifi-phy.cc:335-380 | over every run that completes what is pending, a channel request outside time zero, for a change that takes time, leads to no failed assertion if and only if the radio is not switching and no other change is pending |
| PhyReceive.SecondRequestInTransmission | src/devices/wifi/ovnis-wifi-phy.cc:352-355 | two requests during one transmission: both changes run at its end and the second one's assertion fails |
| PhyReceive.SecondRequestAtTheEnd | src/devices/wifi/ovnis-wifi-phy.cc:335-380 | a request made when the first change is due: the first one's assertion fails |
| PhyReceive.OvnisWifiPhy.StartReceivePacket | src/devices/wifi/ovnis-wifi-phy.cc:405-519 | the state after an arrival, for each of the five states |
| PhyReceive.OvnisWifiPhy.SendPacket | src/devices/wifi/ovnis-wifi-phy.cc:521-544 | the state after a transmission begins, a reception being cut |
| PhyReceive.OvnisWifiPhy.SetChannelNumber | src/devices/wifi/ovnis-wifi-phy.cc:335-380 | the state after any channel request: at once, postponed behind those already postponed, or a failed assertion |
| PhyReceive.OvnisWifiPhy.RunPostponed | src/devices/wifi/ovnis-wifi-phy.cc:352-355 | the state after the first postponed request runs |
| PhyReceive.OvnisWifiPhy.EndReceive | src/devices/wifi/ovnis-wifi-phy.cc:848-877 | the state after a reception ends |
| RouteEstimate.InteriorIsBetween | src/route.cpp:109-145 | the monitored edges are those strictly between the margins |
| RouteEstimate.ContainsEdgeExcludedMargins | src/route.cpp:109-128 | finds an edge exactly when it lies between the margins |
| RouteEstimate.CountEdgesExcludedMargins | src/route.cpp:130-145 | counts the edges between the margins |
| RouteEstimate.ComputeStaticCostExcludingMargins | src/applications/trafficInformationSystem.cpp:124-142 | sums the static costs between the margins |
| RouteEstimate.ApplyRecord | src/knowledge.cpp:107-170 | one record changes each estimate by its gain |
| RouteEstimate.AnalyseLocalDatabase | src/knowledge.cpp:73-186 | the estimates after the loop over the records, equal to the direct ones for routes with separate interiors |
| RouteEstimate.SumChangedAtOne | src/knowledge.cpp:107-170 | replacing the cost of one edge changes the sum by the difference |
| RouteEstimate.GainsRearranged | src/knowledge.cpp:107-170 | subtract-and-add over the records is a sum over the edges |
| RouteEstimate.AgeAfterIs | src/knowledge.cpp:107-170 | what an age is once some route found it stale |
| RouteEstimate.UsesExactlyFreshUnlessRevived | src/knowledge.cpp:107-170 | a measurement is used exactly when fresh, unless an earlier route reset its age |
| RouteEstimate.UsedIff | src/knowledge.cpp:107-170 | when a measurement is used, in terms of the clock, its date and the limits of the routes alone |
| RouteEstimate.EstimateIsDirect | src/knowledge.cpp:88-170 | the incremental estimate is the direct sum in any order of records |
| RouteEstimate.StaleMeasurementRevives | src/knowledge.cpp:107-170 | a stale measurement is used for the second of two overlapping routes |
| RouteChoice.GetProbabilities | src/applications/trafficInformationSystem.cpp:235-272 | the three loops compute the specified probabilities for any order of the map |
| RouteChoice.PenaltyIs | src/applications/trafficInformationSystem.cpp:241-244 | a penalty raises the cost of a route by the share it names; a route without one keeps its cost, one that is only named costs nothing |
| RouteChoice.EveryRouteGetsItsShare | src/applications/trafficInformationSystem.cpp:252-266 | of two or more positive costs each route gets what the others cost, over the total and the number of others |
| RouteChoice.PositiveCostsGiveDistribution | src/applications/trafficInformationSystem.cpp:235-272 | two or more positive costs give positive probabilities that add up to one and order routes opposite to cost |
| RouteChoice.DistributionIff | src/applications/trafficInformationSystem.cpp:252-266 | for costs that are not negative the result is a distribution exactly in the two cases named |
| RouteChoice.PenaltiesKeepPositive | src/applications/trafficInformationSystem.cpp:241-244 | penalties that are not negative keep positive costs positive |
| RouteChoice.GetEvent | src/applications/trafficInformationSystem.cpp:174-193 | the draw picks the route it falls to and never an unknown one |
| RouteChoice.DrawFallsToOne | src/applications/trafficInformationSystem.cpp:174-193 | a draw falls to one route only |
| RouteChoice.DrawsFormIntervals | src/applications/trafficInformationSystem.cpp:174-193 | for a distribution the draws in [0, 1) that fall to a route form an interval as long as its probability up to eps, first and last routes included |
| RouteChoice.ChooseMinCostRoute | src/applications/trafficInformationSystem.cpp:195-209 | the first of the cheapest routes with a cost that is not negative, or none when one is free |
| RouteChoice.GetCLogitProbabilities | src/applications/trafficInformationSystem.cpp:279-305 | each probability is one over the weighted sum; they add up to one; the odds of two routes are the exponential of theta times what the first costs more; for a positive theta and an increasing exponential cheaper routes are likelier |
| RouteChoice.LogitSumsToOne | src/applications/trafficInformationSystem.cpp:287-302 | the inverse weighted sums add up to one for any exponential |
| RouteChoice.LogitLaws | src/applications/trafficInformationSystem.cpp:287-302 | inverse weighted sums have the odds and the order named |
| Timeline.Itinerary.AddEdge | src/itinerary.cpp:50-55 | a new entry, or the old one overwritten; the pointer stays where it is |
| Timeline.Itinerary.FixTravelTime | src/itinerary.cpp:137-174 | the repair of an edge that was passed between two looks |
| Timeline.Itinerary.ComputeTravelTime | src/itinerary.cpp:117-132 | the difference of times after the repairs |
| Timeline.Vehicle.RequestRoute | src/vehicle.cpp:80-96 | the timeline after a route answer |
| Timeline.Vehicle.RequestCurrentEdge | src/vehicle.cpp:103-124 | the timeline after an edge answer, and whether the edge changed |
| Timeline.Vehicle.Reroute | src/vehicle.cpp:171-193 | sends the chosen route from the current edge on, then takes the answer as the route |
| Timeline.FromStartsThere | src/vehicle.cpp:174-183 | what is sent starts at the current edge exactly when the chosen route passes it |
| Timeline.ContiguousAfterEdge | src/vehicle.cpp:103-124 | moving on keeps the timeline contiguous if and only if the edge is new |
| Timeline.ContiguousAfterRoute | src/vehicle.cpp:80-96 | a route answer keeps it contiguous if and only if it starts at the current edge |
| Timeline.ContiguousIffOrderly | src/vehicle.cpp:80-124 | over any run the timeline is contiguous throughout if and only if no edge is revisited and routes start where the vehicle is |
| Timeline.Telescopes | src/edge.cpp:45-52 | travel times strictly between two edges add up to the difference of entering and leaving |
| Timeline.TravelTimeIsSum | src/itinerary.cpp:117-132 | on a contiguous timeline the repairs change nothing and the travel time is that sum |
| WireFormat.MirrorImages | src/traci/storage.cpp:384-409 | reversing a little-endian image gives the big-endian one and back |
| WireFormat.OrderRoundTrip | src/traci/storage.cpp:384-409 | a number is recovered from its bytes in either order |
| WireFormat.PlaceValues | src/traci/storage.cpp:384-409 | what the four bytes of a number are worth in either order |
| WireFormat.IntIff | src/traci/storage.cpp:276-290 | an integer is read if and only if its four bytes are there |
| WireFormat.TextIff | src/traci/storage.cpp:178-201 | the same for a string with its length |
| WireFormat.TextListIff | src/traci/storage.cpp:209-234 | the same for a list of strings |
| WireFormat.FieldsIff | src/traci/storage.cpp:178-291 | a decoder recovers every field of a message, and only from that message |
| WireFormat.EncodingIsInjective | src/traci/storage.cpp:178-291 | messages of one shape with the same bytes are equal |
| TraciStorage.Storage.constructor | src/traci/storage.cpp:55-63 | an empty buffer that knows the byte order of the host |
| TraciStorage.Storage.WriteByEndianess | src/traci/storage.cpp:384-392 | the image is appended, reversed on a little-endian host, and the cursor rewound |
| TraciStorage.Storage.WriteUnsignedByte | src/traci/storage.cpp:163-170 | one byte, or an exception that changes nothing |
| TraciStorage.Storage.WriteInt | src/traci/storage.cpp:286-290 | four bytes, most significant first on either host |
| TraciStorage.Storage.WriteDouble | src/traci/storage.cpp:319-323 | eight bytes, most significant first on either host |
| TraciStorage.Storage.WriteString | src/traci/storage.cpp:195-201 | length and characters |
| TraciStorage.Storage.WriteStringList | src/traci/storage.cpp:227-234 | count and strings |
| TraciStorage.Storage.ReadByEndianess | src/traci/storage.cpp:396-409 | fills the image in host order, or throws where bytes are missing |
| TraciStorage.Storage.ReadInt | src/traci/storage.cpp:276-282 | the integer whose bytes come next, on either host |
| TraciStorage.Storage.ReadString | src/traci/storage.cpp:178-187 | the string that comes next, or where reading stops |
| TraciStorage.Storage.ReadStringList | src/traci/storage.cpp:209-219 | the list that comes next, or where reading stops |
| TraciSocket.FrameIff | src/traci/socket.cpp:494-521 | a payload is received exactly when it is not empty and its frame comes first |
| TraciSocket.FrameLayout | src/traci/socket.cpp:394-409 | a frame is its own length in four bytes, most significant first, and the payload |
| TraciSocket.FramesRoundTrip | src/traci/socket.cpp:394-409 | a list of payloads comes back unchanged and in order if and only if none is empty |
| TraciSocket.Socket.Send | src/traci/socket.cpp:364-387 | the loop hands over every byte in order, or a beginning of them when the system call fails; it ends |
| TraciSocket.Socket.SendExact | src/traci/socket.cpp:394-409 | exactly one frame goes out |
| TraciSocket.Socket.ReceiveComplete | src/traci/socket.cpp:435-444 | the loop collects the bytes asked for whatever the pieces; it ends |
| TraciSocket.Socket.ReceiveExact | src/traci/socket.cpp:494-521 | the payload of the first frame replaces the message; otherwise an exception or the failed assertion, and the message is unchanged |
| TraciCommands.CommandIsWellFormed | src/traci/protocol/command.cpp:48-58 | the length field is the length of the command and a decoder recovers identifier and body |
| TraciCommands.Command.WriteHeader | src/traci/protocol/command.cpp:48-58 | short and extended header; refused when a byte cannot hold the size or the identifier |
| TraciCommands.Query.InitializeGetCommand | src/traci/query/query.cpp:95-101 | header and body of a get command, announced size equal to the size written |
| TraciCommands.Query.InitializeChangeEdgesCommand | src/traci/query/vehicleQuery.cpp:55-67 | the same for a change of route, for any edge list |
| TraciCommands.Query.InitializeChangeCommand | src/traci/query/edgeQuery.cpp:59-67 | the same for a change of maximum speed |
| TraciCommands.Query.InitializeChangeEdgeTravelTimeCommand | src/traci/query/edgeQuery.cpp:81-96 | the same for a change of travel time |
| TraciCommands.Query.InitializeRequestGlobalTimeCommand | src/traci/query/edgeQuery.cpp:98-109 | the same for a request of the travel time |
| TraciCommands.Query.InitializeSubscribeCommand | src/traci/query/subscribeQuery.cpp:26-38 | the same for a subscription to at most 255 variables |
| TraciResponses.Query.ValidateResponse | src/traci/query/query.cpp:122-137 | refused only for a status byte that is there and not zero; the cursor stands behind the description |
| TraciResponses.Query.ReadGetResponse | src/traci/query/query.cpp:146-203 | the answer fields after any input, well formed or not |
| TraciResponses.GetResponseParsed | src/traci/query/query.cpp:146-189 | an answer of any type behind a short or extended header lands in its field alone |
| TraciResponses.BoundingBoxParsed | src/traci/query/query.cpp:189-194 | exactly the four numbers of a box are stored although the loop may ask for more |
| TraciResponses.BoxReads | src/traci/query/query.cpp:189-194 | a box takes all numbers that are left, if and only if some of the buffer was read before it or nothing would fit |
| TraciResponses.SimStepQuery.InitializeCommand | src/traci/query/simStepQuery.cpp:27-31 | a step command with its right size |
| TraciResponses.SimStepQuery.ReadSimulationSubscriptionResponse | src/traci/query/simStepQuery.cpp:74-102 | what one variable changes, and where reading stops |
| TraciResponses.SimStepQuery.ReadSubscription | src/traci/query/simStepQuery.cpp:45-71 | what one subscription answer changes, exceptions and unexpected commands included |
| TraciResponses.SimStepQuery.ReadResponse | src/traci/query/simStepQuery.cpp:37-72 | time and vehicle lists after any input |
| TraciResponses.StepResponseParsed | src/traci/query/simStepQuery.cpp:37-102 | a response without errors leaves exactly what its variables say |
| TraciResponses.ReadingStopsIff | src/traci/query/simStepQuery.cpp:37-72 | reading ends for good if and only if a whole header names no subscription answer, and nothing is read without subscriptions |
| TraciResponses.UnreadIsHarmlessIff | src/traci/query/simStepQuery.cpp:74-102 | a response with a refused or unknown variable leaves what all others say, whatever bytes its value has, if and only if it is the last variable of the last subscription |
| OvnisPacket.BuildPacket | src/ovnisPacket.cpp:128-157 | the computed size is the number of bytes written; header and body |
| OvnisPacket.BuildTrafficInfoPacket | src/ovnisPacket.cpp:159-196 | the same for any number and length of records |
| OvnisPacket.BuildChangedEdgePacket | src/ovnisPacket.cpp:212-245 | the same for a changed edge |
| OvnisPacket.HeaderLayout | src/ovnisPacket.cpp:128-157 | at which bytes of a packet size, time, position, sender and type stand, and in which order of bytes |
| OvnisPacket.OvnisPacket.ReadHeader | src/ovnisPacket.cpp:31-60 | the header fields, and a buffer that stands behind them |
| OvnisPacket.OvnisPacket.ReadTrafficInfoPacket | src/ovnisPacket.cpp:198-209 | the records that come next |
| OvnisPacket.PacketRoundTrip | src/ovnisPacket.cpp:31-60 | every builder's packet gives back time, sender, position, type and body, and says its own length |
| OvnisPacket.TrafficInfoRoundTrip | src/ovnisPacket.cpp:198-209 | and every record, in order |
| BeaconTable.BeaconingAdhocWifiMac.ProcessBeacon | src/devices/wifi/beaconing-adhoc-wifi-mac.cc:294-320 | the counter is N; counters are what is left of N after the own beacons since |
| BeaconTable.BeaconingAdhocWifiMac.EraseFromTheBack | src/devices/wifi/beaconing-adhoc-wifi-mac.cc:344-355 | the loop removes and reports the last half and one of the vector and never takes from an empty one |
| BeaconTable.BeaconingAdhocWifiMac.DecreaseBeaconCount | src/devices/wifi/beaconing-adhoc-wifi-mac.cc:322-358 | the table after a tick; whoever is reported lost has been silent for at least N+1 own beacons |
| BeaconTable.TickHalvesTheBatch | src/devices/wifi/beaconing-adhoc-wifi-mac.cc:322-358 | of k expired neighbours a tick removes floor(k/2)+1 |
| BeaconTable.SilentBatchGoes | src/devices/wifi/beaconing-adhoc-wifi-mac.cc:273-358 | fewer than 2^m silent neighbours at zero are gone within m ticks if no other expires |
| BeaconTable.SurvivesIff | src/devices/wifi/beaconing-adhoc-wifi-mac.cc:322-358 | a neighbour at zero survives a tick if and only if at least as many others at zero come later in the visiting order as the tick removes |
| BeaconTable.SilentStaysIff | src/devices/wifi/beaconing-adhoc-wifi-mac.cc:273-358 | over any run a silent neighbour at zero stays if and only if it is spared so at every tick |
| BeaconTable.SilentNeighbourMayStay | src/devices/wifi/beaconing-adhoc-wifi-mac.cc:273-358 | for every N and any number of further ticks, a legal run from the empty table in which a neighbour is heard once and still there at the end |
| TraceSender.UdpTraceClient.LoadDefaultTrace | src/applications/model/udp-trace-client.cc:212-232 | appends the trace with times turned into delays |
| TraceSender.DelaysTelescope | src/applications/model/udp-trace-client.cc:212-232 | delays add up to the time of the last frame not of type B exactly when these times never go down |
| TraceSender.DelaysOfPrefix | src/applications/model/udp-trace-client.cc:212-232 | the same for every beginning of the trace |
| TraceSender.FragmentsMakeTheFrame | src/applications/model/udp-trace-client.cc:321-327 | the fragments of a frame add up to its size, none exceeds the maximum, and there is one more than full ones |
| TraceSender.UdpTraceClient.Send | src/applications/model/udp-trace-client.cc:312-335 | sends the frames up to the first one with a delay, within one lap |
| TraceSender.EveryByteIsSent | src/applications/model/udp-trace-client.cc:312-335 | what is sent are the bytes of the frames passed, around the trace any number of times, in packets of at most the maximum |
| TraceSender.EndsIffSomeDelay | src/applications/model/udp-trace-client.cc:319-333 | the loop ends if and only if some frame has a delay |

## Left out

- Radios without a mobility model, which the channel skips, and positions outside the grid or the new area, for which the source reads past its vectors.
- WifiChannel: propagation loss and delay, and the scheduling of receptions; `Send` states who is reached.
- Lifecycle.Ovnis.TrafficSimulationStep: does not model starting applications, community detection, the log files and the graph output of the step.
- PacketLossCounter.PacketLossCounter.NotifyReceived: asks for a sequence number below the 32-bit maximum, because the source's loop does not end there.
- Gossip: estimation methods other than "last", pruning and averages of record entries, and the decay of values.
- ErrorRateModel: the DSSS branch, whose code is not part of this model; `erfc`, square root and logarithm are parameters with the properties used.
- OnOffSource: the callbacks of the socket (connection succeeded or failed) and the choice of on and off times.
- PhyReceive: the state helper and the interference helper of ns-3 are represented by their flag, end times and verdicts; sleep and MCS tables.
- RouteEstimate.AnalyseLocalDatabase: does not model congestion lengths, delays and average ages.
- RouteChoice.GetCLogitProbabilities: does not model commonalities, which the source leaves at zero.
- RouteChoice.GetEvent: the draw is a parameter; the range of the random generator is not modelled.
- Timeline.Itinerary.ComputeTravelTime: asks that nothing needs repair when the itinerary has a single edge, because the source then looks before the beginning of its list.
- Timeline: the lengths, speeds and static costs of itineraries, and logging.
- TraciStorage.Storage.ReadString: a negative length is an error here; the source lets it pass its check and forms a reversed range.
- WireFormat.TextIff: the same for the specification of strings.
- TraciStorage: readers and writers of signed bytes, shorts and floats, and hex dumps, which follow the same two byte loops.
- TraciSocket: opening, accepting and closing connections, and waiting with a timeout.
- TraciCommands: the choice of an encoder by command identifier, and queries whose encoder is empty; the constants of TraCI are those of SUMO's protocol.
- TraciResponses: `ReadSetResponse`, which only prints, and vehicle subscriptions, whose reader is empty.
- TraciResponses.UnreadIsHarmlessIff: covers responses with one refused or unknown variable.
- OvnisPacket.OvnisPacket.ReadHeader: a size of 2^31 or more is a failure to read here; the source makes a negative number of it and fails to allocate that much.
- OvnisPacket: memory allocation; the tag buffer of ns-3 is represented by its layout and its bounds.
- BeaconTable: the contents of beacons and the tags with transmission power.
- TraceSender: reading a trace file, and the 12-byte header each packet gets.
- Rounding of floating point numbers, 32-bit overflow of sizes, and exceptions in the middle of a simulation step.

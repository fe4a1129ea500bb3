# SIPMediaGW, a model and its proofs

SIPMediaGW connects SIP room systems to web conferences: a SIP proxy hands each
incoming call to a media gateway, scalers add and remove gateways, every gateway
turns its log into a record of the call, and a Manager console reports on the
calls. This project models the parts of it whose behaviour is decided by visible
code, and proves what they are relied on for.

`dafny verify dfyconfig.toml` checks everything.

| files | what they model |
|---|---|
| `Allocation`, `RowCount`, `LocationTable` | locking a gateway by compare-and-set, unlocking it, reclaiming whole machines, in every interleaving of those statements |
| `GatewayTable`, `Scaling` | the Redis table of gateways, the handlers that move it, and the media scaler's decision on it |
| `Netstring` | the framing of the control socket, byte by byte, and the event loop over it |
| `DisplayName` | the room carried in front of the caller's name, written once and read in two places |
| `CallLog`, `SortedKeys` | log lines to history records to the call's payload |
| `MediaSamples`, `Rounding` | frame rates, the picture's verdict, repeated statistics |
| `PeakSweep`, `Trend` | the peak of concurrent calls, running totals, the least-squares line |
| `Calendar`, `Periods` | the Gregorian calendar and the reporting periods |
| `LikePattern`, `SqlClauses`, `QueryFilters` | the search pattern, WHERE clauses under three truth values, the filters of the reporting views |
| `SignInThrottle`, `Sessions` | the throttle against the full history of attempts, session epochs against the full history of the accounts |
| `Text` | Python's string operations the others share |

Classes are the objects and tables the code updates in place; each method is
proved against a function of the old state, and the properties are lemmas about
those functions over all runs. A `SELECT` whose order the database leaves open is
a relation, and so is the order of a Redis scan: the results hold for every
admissible answer. What other processes do between two statements is an arbitrary
function (`meanwhile`) or an arbitrary step of the state machine.

## Where the code does less than its description

Each of these is stated exactly: as the condition under which it happens, as an input that
shows it, or both.

- A frame is read whole and alone if and only if its colon lies in the first eight
  bytes and the first read does not reach past its end (`Netstring.ReadsExactlyOneFrame`,
  `ShortFrameOverreads`); it decodes to its payload if and only if the payload does not
  contain its own length followed by a colon (`Netstring.DecodeFrame`, `OwnLengthIsLost`). What is left to
  read is counted by what was asked, so a frame comes back whole if and only if every
  read brings all it asks for (`WholeFrameRead`).
- From the scaler's SELECT on, its row count proves that nothing of a machine was locked
  meanwhile if and only if the machine has no row that is not a gateway, or more such rows
  than gateways (`RowCount.CommitProvesUnused`); otherwise callers can lock as many
  gateways as there are such rows, and the update commits (`LyingRun`, `GatewayAndPhone`,
  `CommitExactly`).
- The unlock pattern is not escaped and matches inside a contact: "gw1" also releases
  "gw10", "gw_1" also "gwX1"; it releases one row alone if and only if the name,
  read as a pattern, matches within no other contact (`LocationTable.UnlocksMatching`,
  `UnlocksContaining`, `UnlocksLongerName`, `UnlocksAnyCharacter`).
- A reclaimed gateway can be handed out while it is being stopped: a monitoring reply
  makes it free again (`GatewayTable.ReclaimedCanBeTaken`), and nothing but such a reply
  or a new registration does (`TakenOnlyOnceFreed`).
- What an upscale creates is the cheapest cover of every number of gateways if and only if
  some size holds a single gateway or the last size divides them all
  (`Scaling.CheapestForEveryDecision`, `DearerThanNeeded`, `SortedByName`); for any number of
  CPUs, the single gateway is a single CPU (`CheapestForEveryRequest`). It gives exactly the
  gateways asked if and only if some size holds a single one (`ExactForEveryRequest`).
- An upscale lands on the target for every decision if and only if some size holds a
  single gateway; otherwise it lands above it by less than one last size, even above the
  ceiling (`Scaling.LandsOnTarget`, `ExactForEveryDecision`, `OvershootsTheCeiling`), and
  the next iteration takes the excess back (`NextTakesTheExcess`). Destroying an address
  takes every gateway there, so a downscale lands on the target if and only if no other
  gateway shares an address with a reclaimed one; the two together can go round for ever
  (`GoesRoundInCircles`, `NeverSettles`).
- A downscale can take a call (`Scaling.DownscaleTakesACall`): it keeps them all if and only
  if no gateway that is not idle has the address of a reclaimed one (`LandsOnTarget`), and no
  decision takes any, whatever the scan, if and only if no idle gateway shares its address
  with one that is not (`NoDecisionTakesACall`).
- A second scaler iteration on the target decides nothing if and only if the calls fit
  under the ceiling (`Scaling.NextDecidesNothing`); one that runs before the reclaimed
  entries are gone counts them as calls (`ReclaimedCountAsCalls`).
- A call recorded as ended before it began takes one off the peak; the figure is the peak
  if and only if some busiest instant has no such call over it (`PeakSweep.PeakConcurrent`,
  `BackwardCallHidesOne`).
- The readings of a call leave its video block as it is if and only if no empty video table
  comes before one that has figures, and no figure comes before the first header when the
  last table opened is a video one (`CallLog.ReadingsChangeNoVideo`, `EmptyTableFirst`); with
  numbered tables, if and only if no number is skipped (`NumberedTables`).
- An end announced as "ua: stop all" is recorded if and only if no statistics table was
  printed before it: afterwards every such line is taken for a figure
  (`CallLog.EndNeedsNoTable`).
- The units come as one string split at the commas: ticking every unit shown equals no
  filter if and only if nothing can be read in it, or every unit is non-empty, trimmed,
  without comma and not literally "(unassigned)" (`QueryFilters.EveryUnitTicked`,
  `CommaUnitIsLost`); ticking every outcome leaves out the calls that have none
  (`EveryBoxTicked`).
- The throttle is asked before the password is checked, and the failure is recorded after
  it: with c attempts of an address in flight a run reaches 4 + c failures and no more, so
  the limit of 5 holds for every run if and only if c is at most 1
  (`SignInThrottle.FailuresInFlight`, `LimitKeptOneAtATime`, `SixAtOnce`).
- Creating a deleted name again can revive a session of the deleted account, exactly when
  the new epoch has climbed to the old one (`Sessions.RevivedByRebirth`); a sign-out while
  the database is down ends no copy of the cookie (`OfflineSignOutEndsNoCopy`).

## Model

| member | source | states |
|---|---|---|
| `Allocation.StepKeepsInv` | deploy/kamailio/config/request_gw.py:93-105 | whatever is held according to the log is locked in the table, and nothing held was ever handed out: kept by every step of a caller, the scaler, the unlocker, a registration |
| `Allocation.ReachableInv` | deploy/scaler/src/ScalerSIP.py:30-57 | the same over every run, any number of callers, any order of steps |
| `Allocation.StepChanges` | deploy/kamailio/config/request_gw.py:93-105 | the frame of every step on every row: contact and name never move, the address by a refresh alone, the lock by a hit, a committed stop or a matching unlock alone, the mark by a committed stop alone; a registration starts unlocked |
| `Allocation.HandedAtMostOnce` | deploy/kamailio/config/request_gw.py:93-105 | between two hand-outs of a contact one of its rows was unlocked or registered anew |
| `Allocation.RowTakenAtMostOnce` | deploy/scaler/src/ScalerSIP.py:47-54 | a row handed out or marked to be stopped is taken again only after it was unlocked |
| `Allocation.HandedWasFree` | deploy/kamailio/config/request_gw.py:94-102 | in every run, at the step of a hand-out some row of the contact was unlocked, no dialog named the gateway it was selected under, and all rows of the contact are locked by it |
| `Allocation.HandedWasSelected` | deploy/kamailio/config/request_gw.py:50-105 | in every run a contact handed out was selected for that caller earlier, and was then an unlocked gateway in no dialog |
| `Allocation.AsksAgainInVain` | deploy/kamailio/config/request_gw.py:50-92 | in every run the second SELECT of a caller follows a first one of its own that found nothing |
| `Allocation.HandedOnceAList` | deploy/kamailio/config/request_gw.py:93-105 | in every run a caller handed a gateway asks again before it is handed another |
| `Allocation.NeverMoreThanNeeded` | deploy/scaler/src/ScalerSIP.py:44-57 | in every run the gateways stopped since the scaler's SELECT and what it still wants add up to what it was asked |
| `RowCount.CommitExactly` | deploy/scaler/src/ScalerSIP.py:30-57 | with unchanged registrations, the row count agrees if and only if the rows locked meanwhile are as many as the machine's rows that are not gateways |
| `RowCount.CommitMeansUnused` | deploy/scaler/src/ScalerSIP.py:30-57 | on a machine that only runs gateways a commit happens if and only if no row is locked, and then no caller holds any of them |
| `RowCount.CommitProvesUnused` | deploy/scaler/src/ScalerSIP.py:30-57 | in every run from the SELECT on that keeps registrations, a commit finds no row of the machine locked, if and only if the machine has no row but gateways or more such rows than gateways |
| `RowCount.LyingRun` | deploy/scaler/src/ScalerSIP.py:30-57 | the run otherwise: during a call to another row of the machine callers lock as many gateways as there are such rows, and the update commits |
| `RowCount.GatewayAndPhone` | deploy/scaler/src/ScalerSIP.py:30-57 | an input: one gateway and one other row on a machine, and a run in which the scaler commits while the gateway is locked |
| `LocationTable.NeverMoreThanAsked` | deploy/scaler/src/ScalerSIP.py:45-57 | the machines taken never exceed what was asked, and no skipped machine fits in what remains |
| `LocationTable.AllThatFitOrMoreThanHalf` | deploy/scaler/src/ScalerSIP.py:41-57 | without rollback, every machine that fits alone is taken or more than half of the request is |
| `LocationTable.ScalerTakesMost` | deploy/scaler/src/ScalerSIP.py:24-57 | for every list the SELECT can return, largest machine first: without rollback every unused machine that fits alone is taken or more than half of the request is, and something is taken as soon as one fits |
| `LocationTable.SomeVmList` | deploy/scaler/src/ScalerSIP.py:24-42 | whatever the table there is such a list, with every unused machine once |
| `LocationTable.AloneGetsOneIfAny` | deploy/kamailio/config/request_gw.py:50-105 | a caller alone gets a gateway if and only if one is free in the SELECT it reads, on a machine already in use when there is one, and on one with fewest free |
| `LocationTable.SomeSelected` | deploy/kamailio/config/request_gw.py:50-92 | whatever the table lockGw's SELECTs have a list, with one candidate for each machine with a free gateway |
| `LocationTable.Location.TryLock` | deploy/kamailio/config/request_gw.py:94-103 | one compare-and-set: the rows it locks and the row count; on a hit every row of the contact is locked, and no other changes |
| `LocationTable.Location.LockGw` | deploy/kamailio/config/request_gw.py:93-106 | the first contact of the list whose update touches a row, the updates before it having missed, whatever rows and dialogs did in between; the state after it |
| `LocationTable.Location.Unlock` | deploy/kamailio/kamailioRun.py:20-29 | exactly the rows within whose contact the user matches as a pattern are unlocked, no other changes |
| `LocationTable.UnlocksMatching` | deploy/kamailio/kamailioRun.py:20-29 | for every name, wildcards and escapes included: the rows unlocked are those within whose contact it matches; one row alone if and only if it matches within no other |
| `LocationTable.UnlocksContaining` | deploy/kamailio/kamailioRun.py:20-29 | for a name without pattern characters those are the rows whose contact contains it; one row alone if and only if no other contact contains the name |
| `LocationTable.Location.StopVm` | deploy/scaler/src/ScalerSIP.py:47-57 | a machine is stopped wholly, every row of it that was unlocked now locked and marked, or left as it was |
| `LocationTable.Location.DownScale` | deploy/scaler/src/ScalerSIP.py:44-57 | the greedy choice over the list, with any interference; each machine is marked or left as its row count says at its turn, and the rows marked in all are those of the machines returned |
| `GatewayTable.RunKeepsInv` | deploy/proxyAPI/proxy.py:299-332 | in every run of the handlers an entry that is not started has no room, peer or call start |
| `GatewayTable.StepKeepsInv` | deploy/proxyAPI/proxy.py:776-841 | each handler, the monitor and the scaler keep it |
| `GatewayTable.OnlyVacantChosen` | deploy/proxyAPI/proxy.py:289-297 | in every reachable table a start and the scaler only choose gateways with nobody on them |
| `GatewayTable.TakenOnlyOnceFreed` | deploy/proxyAPI/proxy.py:289-297 | in every run a start takes a gateway that was not free only after a monitoring reply or a new registration freed it |
| `GatewayTable.ReclaimedCanBeTaken` | deploy/proxyAPI/proxy.py:547-577 | after one reply a gateway reclaimed, no longer free, is chosen by a start again |
| `GatewayTable.ConsoleAgrees` | deploy/proxyAPI/proxy.py:453-465 | in every reachable table what the console calls free is what a start may take, and a room is shown exactly on a call |
| `GatewayTable.ResolvedIsStarted` | deploy/proxyAPI/proxy.py:407-441 | in every reachable table the gateway resolved for an endpoint is started and serves it |
| `GatewayTable.SchemeOptional` | deploy/proxyAPI/proxy.py:367-381 | an address with and without its scheme is the same endpoint |
| `GatewayTable.LastPartIs` | deploy/proxyAPI/proxy.py:757 | the identifier is what follows the last colon of the key |
| `GatewayTable.LowerIs` | deploy/proxyAPI/proxy.py:407 | endpoints are compared letter by letter without case |
| `GatewayTable.NormalizedIs` | deploy/proxyAPI/proxy.py:367-381 | blanks around an address do not count, and one without "@" or with the scheme is left as it is |
| `GatewayTable.StartShowsTheCall` | deploy/proxyAPI/proxy.py:757-786 | a start takes the gateway out of the free ones and shows its room as a call; no other entry moves |
| `GatewayTable.ReplyShows` | deploy/proxyAPI/proxy.py:299-332 | a gateway that answers is started, with the room, browsing, physical room, peer and call start of its answer, and keeps its address, kind and older figures |
| `GatewayTable.ReplyIsResolved` | deploy/proxyAPI/proxy.py:407-441 | after an answer that names a peer, /gateway_id finds that gateway for the peer when no other of the scan serves it |
| `GatewayTable.ReplyIsDerived` | deploy/proxyAPI/proxy.py:453-465 | the console shows a call for a room, nobody for no room, peer or call start, the menu otherwise |
| `GatewayTable.DownFrees` | deploy/proxyAPI/proxy.py:299-332 | a container that is down leaves a free gateway with nobody on it and its address, kind and figures |
| `GatewayTable.RegisterSets` | deploy/proxyAPI/proxy.py:1028-1047 | a registration sets address and kind alone of an entry, and makes a new one free and empty |
| `GatewayTable.StopEmpties` | deploy/proxyAPI/proxy.py:829-841 | a stop leaves a gateway that is gone, with nobody on it, and its address, kind and figures |
| `GatewayTable.StartUnderLastPart` | deploy/proxyAPI/proxy.py:757-786 | a start of an entry stored under a longer key writes a new entry under the last part of it |
| `GatewayTable.ReclaimMarks` | deploy/scaler/src/ScalerMedia.py:56-65 | the entries reclaimed get the state and the instant, and nothing else of any entry moves |
| `GatewayTable.ReclaimableIdle` | deploy/scaler/src/ScalerMedia.py:45-65 | the gateways reclaimed are idle, distinct and no more than asked |
| `GatewayTable.ReclaimableCount` | deploy/scaler/src/ScalerMedia.py:45-65 | they are as many as asked, or all the idle ones of the scan |
| `GatewayTable.Redis.FindAvailable` | deploy/proxyAPI/proxy.py:289-297 | the first idle gateway of the scan, or none |
| `GatewayTable.Redis.RegisterGateway` | deploy/proxyAPI/proxy.py:1025-1047 | a new entry, or an existing one with only its address and kind set |
| `GatewayTable.Redis.StartGateway` | deploy/proxyAPI/proxy.py:745-788 | the entry found becomes started with the room, when the gateway accepts; refused when a parameter is missing or nothing is free |
| `GatewayTable.Redis.StopGateway` | deploy/proxyAPI/proxy.py:813-843 | the entry becomes deleted and vacant when the gateway says it is stopping |
| `GatewayTable.Redis.UnregisterGateway` | deploy/proxyAPI/proxy.py:1077-1082 | the entry goes; an unknown one is an error |
| `GatewayTable.Redis.MonitorGateway` | deploy/proxyAPI/proxy.py:526-577 | the reply rewrites the entry, no reply removes it, an unreadable entry is skipped |
| `GatewayTable.Redis.Resolve` | deploy/proxyAPI/proxy.py:407-435 | a serving gateway with no later call start among those serving, or none if none serves |
| `GatewayTable.Redis.ReclaimGateways` | deploy/scaler/src/ScalerMedia.py:45-68 | the idle gateways of the scan, up to the number asked, become stopping |
| `GatewayTable.Redis.CurrentCapacity` | deploy/scaler/src/ScalerMedia.py:93-98 | every entry counts, whatever its state |
| `GatewayTable.Redis.ReadyCapacity` | deploy/scaler/src/ScalerMedia.py:101-109 | the idle entries |
| `Scaling.UpScale` | deploy/scaler/src/Scaler.py:22-32 | as many instances of each size in turn as still fit, and one of the last size more when something is left; their total is the amount provisioned; fails only without sizes |
| `Scaling.ProvisionedBounds` | deploy/scaler/src/Scaler.py:26-32 | at least the request, less than the request plus the last size, for sizes in any order |
| `Scaling.CheapestWhenLastDivides` | deploy/scaler/src/Scaler.py:26-32 | when the last size divides the others no choice of sizes covering the request is cheaper |
| `Scaling.CheapestForEveryRequest` | deploy/scaler/src/Scaler.py:26-32 | for every number of CPUs no choice of sizes that covers it is cheaper, if and only if 1 is a size or the last size divides every size |
| `Scaling.CheapestForEveryDecision` | deploy/scaler/src/Scaler.py:22-32 | for every number of gateways, with sizes that hold whole gateways, no cover is cheaper, if and only if a size holds one gateway or the last size divides every size |
| `Scaling.DearerThanNeeded` | deploy/scaler/src/Scaler.py:26-32 | an input on which a cheaper cover exists |
| `Scaling.SortedByName` | deploy/scaler/src/Scaler.py:24-32 | an input, sizes in the order their names sort in, whose last size does not divide the others and whose cover is always the cheapest |
| `Scaling.ExactForEveryRequest` | deploy/scaler/src/Scaler.py:93-95 | exactly the gateways asked, for every request, if and only if some size holds one gateway |
| `Scaling.HostIs` | deploy/scaler/src/ScalerMedia.py:53 | the address destroyed is the part before the port |
| `Scaling.TargetBounds` | deploy/scaler/src/Scaler.py:83-91 | the rounded target is under the ceiling and holds the buffer as far as the ceiling allows |
| `Scaling.TargetIsLeast` | deploy/scaler/src/Scaler.py:83-91 | the rounded target is the least capacity that grants the floor, the buffer and the load, or the ceiling when none under it does |
| `Scaling.Scale` | deploy/scaler/src/Scaler.py:76-99 | one iteration: creation, or reclaiming, or nothing, for the figures read from the table or a call figure given |
| `Scaling.GivenCalls` | deploy/scaler/src/Scaler.py:76-86 | a call figure given counts for the table's, unless it is zero |
| `Scaling.LandsOnTarget` | deploy/scaler/src/Scaler.py:76-98 | an increase fully applied, with the gateways the created CPUs hold, ends at the target plus less than one last size; a decrease ends on the target (or on the calls alone above the ceiling) if and only if no other gateway is at a destroyed address, and keeps every call if and only if none that is not idle is |
| `Scaling.NoDecisionTakesACall` | deploy/scaler/src/ScalerMedia.py:45-68 | over every slot and every scan no decrease takes a call, if and only if no idle gateway shares its address with one that is not |
| `Scaling.DownscaleTakesACall` | deploy/scaler/src/ScalerMedia.py:45-68 | an input on which reclaiming an idle gateway destroys the call beside it |
| `Scaling.ExactForEveryDecision` | deploy/scaler/src/Scaler.py:86-98 | every increase lands on the target exactly, for every slot and pool, if and only if a size holds one gateway |
| `Scaling.NextTakesTheExcess` | deploy/scaler/src/Scaler.py:86-98 | at the same load the next iteration takes off exactly what is above the target |
| `Scaling.OvershootsTheCeiling` | deploy/scaler/src/Scaler.py:93-95 | an input on which an increase of one creates two and passes the ceiling |
| `Scaling.GoesRoundInCircles` | deploy/scaler/src/ScalerMedia.py:45-68 | two gateways created at one address where one was asked: the next iteration reclaims one, its address takes both, and the table is back where it began |
| `Scaling.NeverSettles` | deploy/scaler/src/Scaler.py:86-98 | an input of that kind: from an empty pool, with one free gateway wanted and sizes of two, every second iteration empties it again |
| `Scaling.NextDecidesNothing` | deploy/scaler/src/Scaler.py:86-98 | the next iteration at the same load decides nothing if and only if the calls fit under the ceiling |
| `Scaling.ReclaimedCountAsCalls` | deploy/scaler/src/ScalerMedia.py:56-65 | entries reclaimed but still in the table are counted as calls |
| `Scaling.TooEarlyIterationAddsBack` | deploy/scaler/src/Scaler.py:86-98 | an input on which an early iteration asks back for what the previous one took |
| `Netstring.DecodeFrame` | src/netstring.py:23-35 | decoding a frame gives its payload if and only if the payload does not contain its length and a colon |
| `Netstring.OwnLengthIsLost` | src/netstring.py:23-35 | an input, "3:a", that is not decoded to itself |
| `Netstring.ReadsExactlyOneFrame` | src/netstring.py:42-60 | after any non-digit junk, one reading is exactly the next frame if and only if its colon lies in the first eight bytes and they do not reach past it |
| `Netstring.StreamRoundTrip` | src/netstring.py:70-97 | with full reads, frames written one after the other are taken by the loop payload after payload, for every number of them |
| `Netstring.LateReadsLoseNothing` | src/netstring.py:37-97 | with reads of any size, when every frame is read whole and the time-outs fall between frames, what the loop takes is the payloads in order with time-outs in between |
| `Netstring.WholeFrameRead` | src/netstring.py:42-60 | a frame that a full reading returns comes back whole if and only if the first read brings its eight bytes, or all there are, and every later one all it asks for |
| `Netstring.NeverPastFull` | src/netstring.py:42-60 | whatever the sizes of the reads, no byte beyond a full reading is taken |
| `Netstring.FullReadsReadAll` | src/netstring.py:42-60 | with full reads a status is exactly the next reading |
| `Netstring.DigitlessDecodes` | src/netstring.py:61-65 | a payload without digits, the time-out's among them, is always decoded |
| `Netstring.ShortFrameOverreads` | src/netstring.py:43-49 | an input on which a short frame swallows the next one's head |
| `Netstring.ShortHead` | src/netstring.py:43-49 | a first read that comes up short never asks for more than a full one |
| `Netstring.Socket.GetStatus` | src/netstring.py:37-68 | what is returned, where the stream stands and how many reads were spent, for reads of any size: the bytes that came, or the time-out status |
| `Netstring.Socket.DropJunk` | src/netstring.py:44-46 | the characters before the first digit, one at a time |
| `Netstring.Socket.ReadRest` | src/netstring.py:50-60 | the chunked read ends with what the sizes of the reads bring, or late |
| `Netstring.Socket.GetEvents` | src/netstring.py:86-93 | for reads of any size, the texts taken turn after turn until a status says nothing; the loop ends when the peer is not silent for ever |
| `DisplayName.EncodeDecode` | src/event_handler.py:149-157 | for every room and name, decoding the written header gives back that room and the name without quotes |
| `DisplayName.EncodeParse` | HTTPLauncher.py:156-178 | the launcher reads the same name, trimmed |
| `DisplayName.ReadsLength` | src/event_handler.py:149-157 | what stands before the dash is a length if and only if it is digits, with blanks around them or a plus sign before |
| `DisplayName.PlainName` | src/event_handler.py:149-157 | a name whose beginning cannot be a length is kept whole, trimmed by the launcher, and gives no room |
| `DisplayName.UnquotedKeeps` | deploy/kamailio/config/request_gw.py:128 | the quotes are all that is removed |
| `DisplayName.Ivr.OnEstablished` | src/event_handler.py:147-161 | room and name set as decoded, an empty name replaced by the peer's address |
| `CallLog.BuildPayload` | src/logParse.py:308-427 | one pass over the records computes the fold, whose figures the next rows give |
| `CallLog.AudioFigures` | src/logParse.py:396-412 | for every history and field the payload's audio says the last figure an audio record tells of it, sent and received apart, and nothing when none does |
| `CallLog.VideoFigures` | src/logParse.py:413-427 | the payload's video has one entry for each number with a figure since the last clearing record, in increasing order, with the last figure told of every field there, sent and received apart |
| `CallLog.VideoIsSinceLastClear` | src/logParse.py:362-427 | with a reading, the video list is exactly the tables printed after the last clearing record, in counter order, numbered by position |
| `CallLog.StreamsSinceClear` | src/logParse.py:368-427 | the streams held after any history are those since the last clearing record |
| `CallLog.ReadingsChangeNoVideo` | src/logParse.py:392-427 | when the last reading is followed by unnumbered tables, other lines and repeats of the close, in any order, the video block equals that of the log without readings if and only if no empty video table precedes one with figures and no figure strays into the open one |
| `CallLog.EmptyTableFirst` | src/logParse.py:742-752 | an input: an empty video table before one with figures, renumbered with readings and not without |
| `CallLog.NumberedTables` | src/logParse.py:742-752 | the same for numbered tables: the video block equals that of the log without readings if and only if no number is skipped |
| `CallLog.ReadingsChangeNoDetail` | src/logParse.py:325-390 | nothing else of the payload depends on the readings, but the end when it is announced among their tables |
| `CallLog.EndNeedsNoTable` | src/logParse.py:741-776 | an end announced as "label: rest" is recorded if and only if no table was printed before; otherwise nothing changes |
| `CallLog.FirstStartLastEnd` | src/logParse.py:325-339 | a call starts with its first start record and ends with its last end record |
| `CallLog.DetailsSay` | src/logParse.py:341-389 | room, browsing and audio encoder of the payload are the last ones told; the video encoders and the keys pressed are all of them, in order |
| `CallLog.CloseSays` | src/logParse.py:362-379 | identifier, reason and type of the close are each the last non-empty one told by a state that closes the call for good, or by any before the first that does |
| `CallLog.SamplesSay` | src/logParse.py:391-398 | the readings of the payload are all of them, in order |
| `CallLog.LateStatesChangeNothing` | src/logParse.py:362-379 | once a call is closed for good, states of it that are not final change nothing |
| `CallLog.LogParser.OnLine` | src/logParse.py:641-776 | the parser's counters and the records appended for one line; what a "label: rest" line does depends on the table begun before |
| `CallLog.LogParser.OnLines` | src/logParse.py:573-776 | the same over a whole log |
| `CallLog.FieldsAre` | src/logParse.py:41-48 | the six labels read as figures, each of a field of its own |
| `SortedKeys.AscendingSorts` | src/logParse.py:462 | the keys of the streams, each once, in increasing order |
| `SortedKeys.AscendingIs` | src/logParse.py:462 | the only such list |
| `MediaSamples.FrameRates` | manager/ingest/mapping.py:221-250 | one rate for each interval of positive length between consecutive samples |
| `MediaSamples.IntervalSays` | manager/ingest/mapping.py:232-249 | one interval from the raw samples: when there is one, its length, both rates, missing counters and those no INTEGER column holds, and whether slides are shown |
| `MediaSamples.RatesAddUp` | manager/ingest/mapping.py:234-249 | rates times seconds differ from the frames counted by at most 0.05 of the span |
| `MediaSamples.PresentationWithinSpan` | manager/ingest/mapping.py:244-277 | presentation time never exceeds the span, nor by more than half a second once rounded |
| `MediaSamples.PresentationIs` | manager/ingest/mapping.py:244-277 | nothing was presented if and only if no interval shows slides, and the whole call was if and only if every one does |
| `MediaSamples.SampleSummary` | manager/ingest/mapping.py:253-285 | ok, stalled and no_picture are exactly none, some and all of the measured rates below the limit; the minimum, the count and the duration |
| `MediaSamples.Tally` | manager/ingest/mapping.py:275-281 | the known rates, how many are low, the least |
| `MediaSamples.LooksCumulative` | manager/ingest/mapping.py:144-169 | true if and only if no counter decreases between any two entries of the same kind, not only neighbours |
| `MediaSamples.VideoEntries` | manager/ingest/mapping.py:103-141 | repeats keep the last pair as 0 and 1, anything else keeps every entry under its number or position |
| `Rounding.RoundIsNear` | manager/ingest/mapping.py:277 | rounding moves a figure by at most a half |
| `Rounding.Round1IsNear` | manager/ingest/mapping.py:242 | rounding to a tenth moves a figure by at most 0.05 |
| `PeakSweep.Peak` | manager/api/usage.py:44-45 | the greatest running sum, 0 without events |
| `PeakSweep.PeakConcurrent` | manager/api/usage.py:31-46 | over the table's rows and for every admissible sort: the maximum over the instants of the period of the number of established rows in progress, less the backward ones; it is the peak itself if and only if some busiest instant has no backward call over it |
| `PeakSweep.CallsAreRows` | manager/api/usage.py:31-46 | the calls the query counts at an instant are the established rows with both ends known that are in progress, as a set of rows |
| `PeakSweep.SomeSweep` | manager/api/usage.py:44-45 | an admissible sort exists for every table and period |
| `PeakSweep.PeakBoundsInstants` | manager/api/usage.py:36-45 | no instant counts more than the figure |
| `PeakSweep.PeakIsReached` | manager/api/usage.py:36-45 | some instant of the period counts exactly the figure |
| `PeakSweep.BackwardCallHidesOne` | manager/api/usage.py:36-45 | an input on which a backward call hides another |
| `Trend.FitIsLeastSquares` | manager/api/usage.py:76-86 | no line has a smaller squared error, any other has a greater one, the residuals sum to zero |
| `Trend.FitIsNormal` | manager/api/usage.py:81-86 | the slope and intercept satisfy the normal equations |
| `Trend.DenominatorPositive` | manager/api/usage.py:78-85 | with two months or more the denominator is never zero |
| `Trend.MonthsTrend` | manager/api/usage.py:74-87 | both, for every series of two months or more |
| `Trend.Totals` | manager/api/usage.py:66-72 | the running totals of every month, the hours rounded to a tenth of the exact sum; each month adds its own to the one before, an unknown figure nothing |
| `Trend.TrendOf` | manager/api/usage.py:76-87 | the drawn line is the fitted one, rounded to a tenth at each month; empty below two months |
| `Calendar.TomorrowIsNextOrdinal` | manager/api/periods.py:40-55 | one day later is one ordinal later, across month ends and leap years |
| `Calendar.AddDaysOrdinal` | manager/api/periods.py:87-93 | adding days moves the ordinal by as many |
| `Calendar.AddDaysInCalendar` | manager/api/periods.py:87-93 | it fails only by leaving the years 1 to 9999 |
| `Calendar.YearLength` | manager/api/periods.py:97-103 | a year's length in ordinals is 366 or 365 by the Gregorian rule |
| `Calendar.MonthLengths` | manager/api/periods.py:48-55 | the length of each month: long and short alternate, February apart, July and August both long |
| `Periods.Window` | manager/api/periods.py:40-45 | as many months back as asked, none for one or less |
| `Periods.WindowTiles` | manager/api/periods.py:40-45 | the months from there follow one another up to the current one |
| `Periods.MonthStepsAreInverse` | manager/api/periods.py:48-55 | on month starts the next and the previous month undo one another |
| `Periods.PeriodsAreNotEmpty` | manager/api/periods.py:74-111 | every accepted period begins before it ends |
| `Periods.LastMonthMeetsMonth` | manager/api/periods.py:83-96 | last month is the whole calendar month that ends where this month begins, and the default |
| `Periods.LastWeekMeetsWeek` | manager/api/periods.py:88-93 | last week ends where this week begins and lasts seven days |
| `Periods.LastYearMeetsYear` | manager/api/periods.py:97-100 | last year is the calendar year before today's, from its first of January to this year's, under its number |
| `Periods.WeekHoldsToday` | manager/api/periods.py:88-90 | the week holds today and begins on a Monday |
| `Periods.MonthHoldsToday` | manager/api/periods.py:94-96 | the month holds today |
| `Periods.YearHoldsToday` | manager/api/periods.py:97-98 | the year holds today |
| `Periods.MonthLabelRoundTrip` | manager/api/periods.py:104-109 | a month's label asks for the same month |
| `Periods.YearLabelRoundTrip` | manager/api/periods.py:101-103 | a year's label asks for the same year |
| `Periods.NamedIsLabelled` | manager/api/periods.py:94-109 | the current month or year asked by name is the one asked by its label, label included |
| `Periods.LastMonthIsLabelled` | manager/api/periods.py:83-109 | the last month asked by name is the one asked by its label |
| `Periods.LastYearIsLabelled` | manager/api/periods.py:99-103 | last year asked by name is the one asked by its label, label included |
| `Periods.RefusedExactly` | manager/api/periods.py:58-111 | a period is refused if and only if it is none of the names, no year and no month from 1970 to 2100 |
| `Periods.IsoReadsBack` | manager/api/periods.py:86-93 | the text of a day gives back its year, month and day |
| `Periods.LabelsTellTheDay` | manager/api/periods.py:86-93 | today and the weeks are labelled with the day they begin on |
| `Periods.MonthsTileTheYear` | manager/api/periods.py:101-109 | the twelve months of a year tile it |
| `Periods.RaisedOnlyAtTheEnds` | manager/api/periods.py:74-111 | the date arithmetic fails only in the first and last years of the calendar |
| `LikePattern.SequentialIsSimultaneous` | manager/db.py:119 | the three replacements in their order equal one escape of every special character at once |
| `LikePattern.PatternMeansContains` | manager/db.py:113-120 | a string matches the pattern if and only if it contains the text searched |
| `SqlClauses.AllJoin` | manager/db.py:102-110 | fragments put side by side read their parameters side by side and mean their conjunction |
| `SqlClauses.LeavesTheRest` | manager/api/calls.py:136-146 | the parameters after those of the WHERE are left for what follows |
| `SqlClauses.Kleene` | manager/db.py:102-110 | AND and OR of the three truth values take the lesser and the greater |
| `SqlClauses.NullIsUnknown` | manager/api/calls.py:67-93 | a comparison with NULL is neither true nor false, IS NULL is true, and nothing is in an empty list |
| `QueryFilters.UnitFilter` | manager/api/periods.py:132-156 | under three truth values the clause keeps a row if and only if nothing is chosen or its unit is, NULL being "(unassigned)"; placeholders match parameters |
| `QueryFilters.CallScope` | manager/api/periods.py:120-129 | the same, among user calls |
| `QueryFilters.OneOfByName` | manager/api/periods.py:149-155 | it is the choice of the names shown unless a row literally holds the word that stands for NULL |
| `QueryFilters.EveryUnitTicked` | manager/api/periods.py:132-156 | for the string that joins every name shown, all rows are kept if and only if nothing can be read in it, or every unit is NULL or a sendable name other than "(unassigned)" |
| `QueryFilters.NothingAsked` | manager/api/periods.py:144-148 | the string asks for nothing, and no filter is set, if and only if every name is blank or made of commas |
| `QueryFilters.CommaUnitIsLost` | manager/api/periods.py:144-148 | an input on which ticking a unit with a comma drops its own rows |
| `QueryFilters.UnitsRoundTrip` | manager/api/periods.py:144-148 | a list of names comes back as sent if and only if each is non-empty, trimmed and without comma |
| `QueryFilters.Choices` | manager/api/calls.py:46-55 | only known values are ever picked |
| `QueryFilters.ChoicesRoundTrip` | manager/api/calls.py:46-55 | a list comes back as sent if and only if every value is known, non-empty and without comma |
| `QueryFilters.UnknownChoiceIsRefused` | manager/api/calls.py:46-55 | the request is refused if and only if some value is unknown |
| `QueryFilters.ExactFilters` | manager/api/calls.py:67-93 | the clauses keep a row if and only if no filter is set, or it is a user call of the chosen reason, outcomes and video states; placeholders match parameters |
| `QueryFilters.EveryBoxTicked` | manager/api/calls.py:80-90 | every outcome ticked leaves out calls without one, every video state ticked leaves out none the ingestion writes |
| `QueryFilters.SearchClause` | manager/api/calls.py:31-34 | the search box keeps a row if and only if nothing was typed or some searched column contains the text |
| `QueryFilters.SearchCalls` | manager/api/calls.py:136-146 | the whole WHERE of the call log: window, search and filters; the two parameters left are those of LIMIT and OFFSET |
| `SignInThrottle.Throttle.LoginThrottled` | manager/auth.py:166-176 | throttled if and only if the address's current run of failures reached the limit and the lock time has not passed since the last one, by its whole history |
| `SignInThrottle.Throttle.RecordLoginFailure` | manager/auth.py:179-193 | the table keeps telling every address's history, and only live entries remain |
| `SignInThrottle.Throttle.ClearLoginFailures` | manager/auth.py:196-197 | a success ends the run |
| `SignInThrottle.LocksForAMinute` | manager/auth.py:166-193 | five failures, each within a minute of the one before, lock the address out for a minute after the last |
| `SignInThrottle.FourAreNotEnough` | manager/auth.py:166-193 | four, or a pause of a minute among the last five, do not |
| `SignInThrottle.OthersDoNotMatter` | manager/auth.py:187-190 | an answer depends on nothing but the address's own events, purges included |
| `SignInThrottle.FailuresInFlight` | manager/app.py:203-228 | with at most c attempts of an address between the check and the record no run of failures exceeds the limit less one plus c, and that bound is reached |
| `SignInThrottle.LimitKeptOneAtATime` | manager/app.py:203-228 | the limit holds for every run if and only if an address has at most one attempt in flight |
| `SignInThrottle.SixAtOnce` | manager/app.py:203-228 | an input: six attempts at once all pass and all fail, six failures in a run |
| `Sessions.AcceptedIffUntouched` | manager/auth.py:268-285 | over every run without re-creation, a session opened on an enabled account is accepted if and only if it is recent and no password, role or state was set, no sign-out reached the database and the account was not deleted since; the account then has the rights it had |
| `Sessions.AgeIsBounded` | manager/auth.py:244-279 | an accepted session is at most as old as the limit, and one a second younger than the limit is not too old |
| `Sessions.RefusedForEver` | manager/auth.py:274-285 | refused once, refused on every later request |
| `Sessions.StaleEpochStaysStale` | manager/auth.py:281-284 | a cookie of any origin whose epoch fell behind is refused for ever |
| `Sessions.EpochCounts` | manager/users.py:105-149 | an epoch is its value at any earlier step plus the bumps since |
| `Sessions.RevivedByRebirth` | manager/users.py:93-102 | after a re-creation an old session is accepted if and only if the new account is enabled and its bumps equal the old epoch |
| `Sessions.NamesakeInheritsSession` | manager/db/schema_users.sql:26 | an input on which a namesake's creation revives a session |
| `Sessions.SignOutEndsEveryCopy` | manager/auth.py:248-262 | a sign-out that reached the database leaves no session opened before it |
| `Sessions.OfflineSignOutEndsNoCopy` | manager/auth.py:257-262 | one that did not changes nothing for a copy of the cookie |
| `Sessions.UserTable.CreateUser` | manager/users.py:93-102 | a new account at epoch 0; a name already taken changes nothing |
| `Sessions.UserTable.SetPassword` | manager/users.py:105-114 | the new hash and a new epoch, nothing else of any account; the audit line with it or not at all |
| `Sessions.UserTable.UpdateAccount` | manager/users.py:117-143 | a role or a state bumps the epoch, a name alone does not, nothing given only reads; the audit line if and only if a row was written |
| `Sessions.UserTable.BumpEpoch` | manager/users.py:146-149 | a new epoch, or nothing when the database is down |
| `Sessions.UserTable.DeleteUser` | manager/users.py:157-160 | the row goes, with its audit line |
| `Sessions.Session.OpenSession` | manager/auth.py:241-244 | the cookie holds the account's epoch and the instant rounded down |
| `Sessions.Session.CloseSession` | manager/auth.py:247-262 | the browser's cookie is cleared in any case, the account is bumped when the database answers |
| `Sessions.Session.SessionAccount` | manager/auth.py:268-285 | the account if and only if the cookie is accepted after the table's whole history; a refused one is cleared |
| `Text.DecimalRoundTrip` | deploy/kamailio/config/request_gw.py:128 | a length written in decimal is read back |
| `Text.FindsFirst` | src/netstring.py:26 | a search finds the first occurrence, or there is none |
| `Text.LessIs` | deploy/proxyAPI/proxy.py:424 | strings are compared at the first character where they differ, a beginning coming first |
| `Text.BlanksAre` | src/event_handler.py:149 | the characters Python strips |

## Left out

- Redis, MySQL and PostgreSQL themselves: tables are maps of rows, one statement is one atomic step, the columns computed from `received` and `callee_contact` are given.
- The concurrency of the proxy's handlers: they await a gateway between reading and writing an entry, and each is one atomic step here.
- A Redis scan is taken to visit every key, once; a scan that repeats a key would count it twice.
- Browser connectors, pages, Docker, subprocesses, HTTP, ffmpeg, transcription and file upload.
- JSON and regular expressions: records, matched log lines and replies come parsed, and the JSON reader's verdict on a text is a parameter of `Netstring.Socket.GetEvents`. Every reading of a socket is ASCII.
- Unicode: digits and blanks are the ASCII ones; underscores that `int()` accepts in numbers are not.
- Collation and case: `ILIKE` is read as `LIKE`, and account names are taken already lower-case.
- Floating point: seconds, rates, loads and hours are exact, and `round` is to the nearest with halves to the even one.
- Time zones, daylight saving, the choice of the scaler's slot by weekday and time of day, and `cpu_per_gw` as a fraction: it is a whole number here.
- Passwords' rules and hashing, cookie signatures, client addresses behind a proxy, the checks of the account table on names and external identities.
- The call's addresses, URLs, media directions and durations in the payload: the fold keeps the records that decide the video block, the texts, the close and the readings.
- `is_user_call`, the outcome and the reporting views: a row carries what they answer.
- The pairing codes of registrations, the proxies' authorisations, the cleanup of stale instances, the "#number" search that names one call.
- A null and an empty field of a gateway entry read alike in every handler and are one value here.
- Rows locked meanwhile are all the scaler's row count sees: dialogs begun between its SELECT and its UPDATE are not looked at by the code, and no result here speaks of them.
- Trend.Totals: the months come as the view gives them, and a month without calls that the view leaves out is not added.
- The "Event" and the "Baresip" lines are parsed by two processes that share the history file only, and a successful push truncates it: `CallLog.LogParser` is both of them over the merged lines, and never truncates.
- Scaling.ExactForEveryDecision: an instance size is taken to hold a whole number of gateways (so does `Scaling.ExactForEveryRequest`).
- Scaling.LandsOnTarget: every gateway that the created CPUs hold registers, one gateway to so many CPUs of an instance.
- Netstring.Socket.GetEvents: a peer that stays silent for ever keeps the loop turning; here it is silent finitely often. The answers the callback sends back are not part of the stream.
- CallLog.ReadingsChangeNoVideo: tables after the last reading are all unnumbered here, and all numbered, without a figure before their first header, in `CallLog.NumberedTables`; the two are not mixed.
- RowCount.CommitProvesUnused: every contact has one row, and what callers still have to try when the scaler reads its list are contacts of gateways, as they are when they read them; some contact outside names none of the machine's gateways, for the call during which they lock.

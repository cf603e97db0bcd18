# Platform event filtering: a verified model

The repository runs two processes on a baseboard management controller. The configuration
process publishes PEF tables (section 17.7 onwards of the IPMI v2.0 specification) from a JSON
file as D-Bus objects and accepts writes to them. The event filtering process takes events,
matches them against the published filter lists, acts on the matches, and writes changed
properties back to the JSON file. This project models that behaviour in Dafny and proves what
holds over every table, event and run.

The modules, in the order they build on each other:

| file | what it models |
|---|---|
| Types, Bits | integer widths, D-Bus vectors; machine words as bit vectors of any width and the masked comparator |
| Json | JSON documents, merge patch (RFC 7396, section 2), reading and writing along a key path |
| Tables | cutting a table into four lists and turning each list into columns |
| FilterTable, AlertPolicy | reading the lists back, the row predicate, the selected policies |
| PefAction, ActionProperties | the ordered trace of SEL records, power transitions and alerts of an event, and its properties |
| EntryPath, Monitors | numbers in object paths; the callbacks that write changes back |
| ConfigSync | both processes with the queue of change signals between them |
| EndToEnd | from an event's message to its effects, in the terms of the two JSON tables alone |
| LanConfig, Destinations | the LAN configuration file with its writer and readers; choosing an alert's destination |
| SensorNumbers, SensorCache, SensorNames | numbering sensors, the versioned cache of the number map, the byte-keyed sensor lists |
| PostponeTimer, RetryConfig, StateMask | the postpone timer, the retry settings, the masks of discrete sensors |

Loops, early returns and updated fields of the source are methods with loop invariants and
classes; each method is proved against a function or predicate, and the properties are proved
about those. JSON numbers are unbounded integers and every cast to a narrower type is written
out. Whatever comes from elsewhere (the object mapper, power state, send status, user
database, file operations) is an arbitrary parameter.

What the proofs show about the code as it is:

- The published lists, read back and filtered, give exactly the matching rows of the JSON table
  in table order, for every table length; a list that cannot be read just drops out.
- An event has an effect of any kind (a SEL record, a transition, an alert, an event id) exactly
  when a row of the JSON filter table matches its message and calls for it, by itself or by an
  enabled row of its group in the JSON policy table (EndToEnd.DoPefTask).
- Write-back keeps the file and D-Bus in step at every state of a run exactly when every
  written vector has its list's length and every restart of the configuration process finds a
  file that already publishes what D-Bus holds (ConfigSync.RunKeepsSync). A restart before the
  pending signals are delivered leaves the two apart for good, however many of them are
  delivered afterwards, unless those signals change nothing (ConfigSync.EarlyRestart).
- Tables may be missing from the file, as the destinations are from the one the repository
  installs; they count as empty.
- SEL records match attempted actions one for one; an attempt need not be a transition: a row
  leaves the record of a power action without one exactly when records are on, no power-off is
  due, a cycle or reset is, and the host is off (ActionProperties.RecordWithoutTransition).
- The action process compares the selector with the array size before subtracting one, so it
  never reaches the last destination, which the other two resolvers do reach
  (Destinations.ResolversAgree).
- Numbering raises for exactly 765 sensors although all of them got a number, and later calls
  return that numbering (SensorNumbers.NumberSensors, SensorCache.MapIsCurrent). Until the
  version counter comes round, the number map and the sensor tree disagree exactly while a
  failed fetch has left an empty tree and the map still stands for sensors
  (SensorCache.ViewsAgree).
- The first write for an interface hides what its readers took until then from outside the
  wrapping object or from the legacy file (LanConfig.OtherPathsKept).
- The number found in an object path is the printed one only when that is not negative
  (EntryPath.EntryNoOfPrinted).
- A request to arm the postpone timer stays in force until its own countdown or the next write
  exactly when, at its time, no countdown is running and none is waiting to start
  (PostponeTimer.RequestHonoured); otherwise the end of that countdown overwrites it with 0
  before it is even taken up, also when it asked for 0xFE (PostponeTimer.RearmIsLost).
- Loading the retry file clamps only from above; the three limits hold in every run exactly
  when the file the process starts from fits them (RetryConfig.RunBounded).
- Saving through the merge patch keeps another section exactly when that is not null and holds
  no null object member outside an array (ConfigSync.OtherSectionsPatched).

## Model

| member | source | states |
|---|---|---|
| Bits.PefEveDataMatch | src/pef_action.cpp:1383-1428 | the branching comparator, at any width, returns 1 just when all exact positions of the masked value equal the wanted bits and, unless all positions are exact, some other position equals its wanted bit |
| Bits.ComplementInvariance | src/pef_action.cpp:1383-1428 | with a full mask, complementing the value and the wanted bits does not change the comparison |
| Bits.HasIsBit | src/pef_action.cpp:1582-1628 | the single-bit flag test reads exactly that bit of the word |
| Tables.FillBuckets | src/pef_config.cpp:1184-1197 | the loop that computes each row's list leaves in list b the rows from b times the width on, and in the last list everything left |
| Tables.BucketExtends | src/pef_config.cpp:1184-1197 | the lists follow each other without gap or overlap and together are the table, also past four full lists |
| Tables.BuildColumns | src/pef_config.cpp:1212-1275 | pushing every row's values gives, per property, the column of the rows' cast values with 0 or empty text for a missing key |
| Tables.PublishTable | src/pef_config.cpp:1184-1275 | the published objects are the columns of the lists that have rows |
| Tables.PublishedAt | src/pef_config.cpp:1199-1210 | list b is published exactly when its bucket has rows, and then holds that bucket's columns |
| Tables.PublishedContiguous | src/pef_config.cpp:1199-1210 | the published lists are numbered without gaps, and their count is the one given by the table length |
| Tables.RowPublished | src/pef_config.cpp:1184-1275 | row j is published in list j / width, or the last one, at the place that remains, and there each column holds its value modulo 256 or 65536, or its text |
| FilterTable.EntryMatches | src/pef_action.cpp:1580-1630 | the chain of tests passes a filter exactly when the row predicate holds: enabled, five fields, three data bytes and the offset bit |
| FilterTable.CollectMatches | src/pef_action.cpp:1475-1640 | the loops over lists and columns collect, in order, the matching rows of every list that answers, skipping rows some column does not reach |
| FilterTable.CollectList | src/pef_action.cpp:1535-1631 | one list adds the matching rows that every column reaches, after what was collected before |
| FilterTable.ReadPublished | src/pef_action.cpp:1496-1578 | reading the published columns back gives the rows they were built from |
| FilterTable.GatherSelects | src/pef_action.cpp:1475-1640 | collecting list by list is filtering the rows of all readable lists put together, whichever lists fail |
| FilterTable.PublishedListsHold | src/pef_config.cpp:1184-1275 | the published lists are well typed and hold the table bucket by bucket |
| FilterTable.FilteringMeaning | src/pef_action.cpp:1468-1640 | over the published lists, what is collected is the order-preserving filter of the JSON table by the row predicate, for every table and event |
| AlertPolicy.CheckAlertPolicyTbl | src/pef_action.cpp:871-1110 | the selected policies are, in order, the entries of the answered objects under the table that are in the group and enabled; none for group 0 or a failed mapper |
| AlertPolicy.SelectedMeaning | src/pef_action.cpp:1022-1097 | a policy is selected exactly when some answered object has it in the group and enabled |
| ConfigSync.ListsUnderPrefix | src/pef_action.cpp:881-903 | every policy list is published under the directory in which the selection looks |
| AlertPolicy.PolicySelectionMeaning | src/pef_config.cpp:1506-1558 | over the published policy lists the selected policies are the enabled rows of the group in JSON table order, for every table length |
| PefAction.PerformPower | src/pef_action.cpp:1121-1180 | one row's power block makes the trace of its power step, with its record first when logging |
| PefAction.GetInterfaceNameForChannel | src/pef_action.cpp:71-82 | the answer is the name of the first pair with the channel, and empty when no pair has it |
| PefAction.PerformAlert | src/pef_action.cpp:1194-1369 | one policy's block makes the trace of its alert step, nothing when channel, destination or user cannot be resolved |
| PefAction.PerformPefAction | src/pef_action.cpp:1112-1381 | the nested loops make the trace of the steps of all rows and policies in order |
| PefAction.EventFilteringProcess | src/pef_action.cpp:1462-1663 | the trace is that of the collected rows, and empty without rows or configuration |
| PefAction.PefTask | src/pef_action.cpp:1665-1738 | an event acts only with PEF enabled and the postpone timer at 0 or 0xFF, and then as the message says: its generator bytes are the high and low byte of the id and every other field is the argument |
| EndToEnd.MatchesMeaning | src/pef_action.cpp:1580-1630 | a filter row matches an event exactly when, key by key and bit by bit, the JSON row matches the message |
| EndToEnd.EffectsFromTables | src/pef_action.cpp:1462-1663 | in agreement, an event has an effect of any kind exactly when a JSON filter row matches its message and calls for it, by itself or by an enabled JSON policy row of its group, with interface, destination type, user and address spelled out |
| EndToEnd.DoPefTask | src/pef_action.cpp:1665-1738 | so does the whole call, behind the gate and with the configuration answered |
| ActionProperties.StepsExact | src/pef_action.cpp:1112-1381 | soundness and completeness: a step is taken exactly when it is due for its row or its row and policy, and the steps are strictly ordered, so each is taken once |
| ActionProperties.EffectsExact | src/pef_action.cpp:1112-1381 | the trace has an effect of any kind exactly when a due action of some row has it |
| ActionProperties.TransitionsExact | src/pef_action.cpp:1121-1180 | a power transition happens exactly when some row asks for it and the global control allows it, power-off winning, the reboot only on a running host |
| ActionProperties.AlertsExact | src/pef_action.cpp:1182-1369 | an alert is sent exactly when some row asks for alerts and one of its policies has a channel with an interface and a destination of the alert's type |
| ActionProperties.StepDetails | src/pef_action.cpp:1147-1163 | the record of a reboot names the cycle when the row asks for one and the reset otherwise; the event id that is set is the event's |
| ActionProperties.StepsRegular | src/pef_action.cpp:1112-1381 | every step's record code fits its attempt, and only a power query or a mail is followed by anything |
| ActionProperties.TraceOrderly | src/pef_action.cpp:1132-1167 | when logging, each attempt directly follows a record of its code and each record directly precedes an attempt; reboots follow the power query and event ids follow mail |
| ActionProperties.RecordsMatchAttempts | src/pef_action.cpp:1132-1167 | there are as many records as attempts when logging and none otherwise |
| ActionProperties.EventIdPerMail | src/pef_action.cpp:1311-1338 | LastBMCProcessedEventID is requested once for every mail send that returned status 0 |
| ActionProperties.OneTransitionPerRow | src/pef_action.cpp:1121-1180 | a row causes one power transition when it has a cause for one and otherwise none |
| ActionProperties.RecordWithoutTransition | src/pef_action.cpp:1147-1178 | a row leaves the record of a power action and no transition exactly when records are on, no power-off is due, a cycle or reset is, and the host is off |
| Json.MergeIntoNonObject | include/pef_config_update.hpp:295-297 | patching anything but an object gives the patch without its null members, arrays kept whole |
| Json.MergeKeepsDocument | include/pef_config_update.hpp:382-384 | saving through a patch onto an array keeps the document exactly when no object member is null |
| Json.StripNullsReads | include/pef_config_update.hpp:295-297 | removing null members keeps every other value that is no object where it was, at every depth, and adds none |
| EntryPath.FindEntryNo | include/pef_config_update.hpp:28-42 | the scan gives the number at the first digit after the last separator, 0 without digits |
| EntryPath.EntryNoOfPrinted | src/pef_config.cpp:1792-1799 | the number printed after a digit-free name is found again exactly when it is not negative |
| EntryPath.FindListIndex | include/pef_config_update.hpp:84-94 | the loop returns the least list whose name occurs in the path |
| EntryPath.ListIndexOfPath | include/pef_config_update.hpp:203-213 | a list's own path under a digit-free directory is recognised as that list |
| Monitors.WriteSlice | include/pef_config_update.hpp:106-116 | the write-back loop sets the property of the rows from the start on to the vector's elements, as far as the table goes, and nothing else |
| Monitors.EventFilterCallback | include/pef_config_update.hpp:84-159 | the saved document has the rewritten filter table, by list slice or by entry number, and is otherwise the old one |
| Monitors.SetFilterEntry | include/pef_config_update.hpp:138-156 | a scalar change sets the property of the first row with the entry number, its other keys and every other row staying |
| Monitors.FilterSignalHitsEntry | include/pef_config_update.hpp:137-156 | a scalar signal for the object printed for entry n does so in the first row with number n |
| Monitors.SetPolicyEntry | include/pef_config_update.hpp:274-292 | the first row with the number, or without one when the entry's number is not positive, gets the byte; nothing else changes |
| Monitors.PolicySignalHitsEntry | include/pef_config_update.hpp:251-292 | a scalar policy signal for entry n does so, its value cut to a byte |
| Monitors.AlertPolicyCallback | include/pef_config_update.hpp:203-298 | the saved document is the one with the rewritten policy table, without null members; a vector for no list saves nothing |
| Monitors.PefConfInfoCallback | include/pef_config_update.hpp:358-384 | in the saved document every element of the section has the property's new value and every other key as before, as many elements as there were; null members are gone |
| Monitors.DestinationCallback | include/pef_config_update.hpp:427-452 | every changed property in turn goes to the first destination with the path's number; an element without a number before it aborts without saving |
| Monitors.SetDestination | include/pef_config_update.hpp:432-447 | one change sets the first element with the number and nothing else, and aborts exactly when an element without a number comes first |
| Monitors.DestinationSignalHitsEntry | include/pef_config_update.hpp:424-450 | with unique destination numbers a signal for the object printed for destination n gives each property of entry n the value of its last change, and leaves its other keys and every other entry |
| Monitors.StripNullsKeepsTable | include/pef_config_update.hpp:295-297 | removing null members leaves every table as it is |
| ConfigSync.WriteBack | include/pef_config_update.hpp:101-135 | for any table and list, rewriting the slice and publishing again equals changing the one column exactly when the vector has the list's length |
| ConfigSync.DeliverSignal | include/pef_config_update.hpp:62-179 | delivering a signal is running its callback on the file |
| ConfigSync.ApplyRows | include/pef_config_update.hpp:203-254 | one signal rewrites its own list's slice and leaves the other published table, through both ways of saving |
| ConfigSync.SliceDelivered | include/pef_config_update.hpp:101-135 | element i of the vector for list b ends up in row 10 b + i of the filter table or 15 b + i of the policy table, and nothing else changes there |
| ConfigSync.WriteKeepsSync | src/pef_config.cpp:1281-1493 | an accepted write keeps file and D-Bus in agreement exactly when the vector has its list's length |
| ConfigSync.RestartKeepsSync | src/pef_config.cpp:1184-1275 | a restart, with any signals pending, keeps the agreement exactly when the file publishes what D-Bus holds |
| ConfigSync.DeliverKeepsSync | include/pef_config_update.hpp:62-179 | a delivery neither makes nor breaks the agreement |
| ConfigSync.StepKeepsSync | include/pef_config_update.hpp:62-317 | a step keeps the agreement exactly when it is careful: written vectors have their list's length and restarts find a file that publishes what D-Bus holds |
| ConfigSync.RunKeepsSync | include/pef_config_update.hpp:62-317 | from a fresh start, replaying the pending signals onto the file gives at every state of a run exactly the columns D-Bus holds if and only if every step is careful |
| ConfigSync.DrainedRestart | src/pef_config.cpp:1184-1275 | once the queue has drained, a restart publishes what D-Bus already holds |
| ConfigSync.EarlyRestart | src/pef_config.cpp:1184-1275 | a restart with signals pending, followed by any number of deliveries, ends in agreement exactly when the file published what D-Bus held |
| ConfigSync.RestartAfterWrite | src/pef_config.cpp:1184-1275 | after one write from a drained state that is exactly when the write changed nothing |
| ConfigSync.ListWriteArrives | include/pef_config_update.hpp:84-159 | a vector of its list's length written behind any pending signals is on D-Bus at once and in the file, row by row, once those signals and its own are delivered |
| ConfigSync.ConfInfoReplayed | include/pef_config_update.hpp:358-384 | with the pending signals replayed a configuration property has the value of its last pending change, and the file's own when there is none |
| ConfigSync.ConfInfoArrives | include/pef_config_update.hpp:319-384 | a configuration change is in the file once the signals before it and its own are delivered |
| ConfigSync.DestinationsReplayed | include/pef_config_update.hpp:424-450 | a destination's property has the value of the last pending change for its number, and the file's own when there is none |
| ConfigSync.DestinationArrives | include/pef_config_update.hpp:400-452 | a destination's change is in the row of its number once the signals before it and its own are delivered |
| ConfigSync.PublishDestinations | src/pef_config.cpp:1792-1807 | one object is published for every number in the section and no other |
| ConfigSync.ApplyKeepsNumbers | include/pef_config_update.hpp:424-450 | no signal adds, removes or renumbers a destination, so the destination objects stay those of the section |
| ConfigSync.FilteringSeesTable | src/pef_action.cpp:1468-1640 | in agreement, filtering gives the matching rows of the JSON table with the pending writes replayed |
| ConfigSync.EventActsOnTables | src/pef_action.cpp:1112-1381 | in agreement, an event's trace has a power transition exactly when a matching row of the JSON filter table calls for it, and an alert exactly when such a row and an enabled row of its group in the JSON policy table do |
| ConfigSync.OtherSectionsUntouched | include/pef_config_update.hpp:159-159 | a filter or destination signal leaves every other section as it is, whatever it holds |
| ConfigSync.OtherSectionsPatched | include/pef_config_update.hpp:295-297 | a policy or configuration signal keeps another section exactly when that is not null and has no null object member |
| LanConfig.Split | src/pef_config.cpp:929-935 | the selector is cut at every '/', without a segment after a final one |
| LanConfig.SegmentsMeaning | src/pef_config.cpp:929-935 | the segments hold no '/' and, joined with it again, are the selector without a final one |
| LanConfig.UpdateLanParamConfigValue | src/pef_config.cpp:896-952 | the saved file is the loaded one with the value put at interface, Config, selector and property, or the type error on the way |
| LanConfig.ReadersSeeWrite | src/pef_config.cpp:1832-1881 | after a write publication and both direct readers see the value at its path |
| LanConfig.ReadersMeaning | src/pef_config.cpp:596-612 | the direct readers take the wrapped entry when there is one and else the one at the top; publication the one the layout decides, and else the legacy file |
| Destinations.ConfigSeesWrite | src/pef_config.cpp:896-952 | a property written with or without a selector is what the test dispatcher and the trap sender find under the interface's Config |
| LanConfig.OtherInterfaces | src/pef_config.cpp:596-612 | every other interface keeps all its data for both kinds of reader |
| LanConfig.OtherPaths | src/snmp_notification.cpp:309-333 | every other path of the interface reads as before, or as nothing when the interface had its data outside the place written |
| LanConfig.OtherPathsKept | src/pef_config.cpp:896-952 | other paths are kept exactly when nothing was read there from beside the wrapping object or from the legacy file |
| LanConfig.PropertiesDiverge | src/pef_config.cpp:938-941 | a write without a selector leaves every other property and every selector path that does not start with its name |
| Json.PutFrame | src/pef_config.cpp:927-941 | writing along a path leaves every path that neither leads through it nor lies below it |
| Destinations.GetManagers | src/snmp_notification.cpp:277-508 | at most one manager is returned: that of the destination at the trap sender's index when it can be sent a trap |
| Destinations.SelectionMeaning | src/snmp_notification.cpp:383-498 | a manager is selected exactly when the file describes it at selector minus one: the address from the array of its address type with port 162, and the community, or the user with its stored properties |
| Destinations.DispatchTestDestination | src/pef_config.cpp:567-744 | a test sends a trap exactly for a type up to 2 at selector minus one, and mail exactly for type 3 and a user there with an address |
| Destinations.TestedTypeIndex | src/pef_config.cpp:638-653 | the tested type is the one at the test resolver's index |
| Destinations.ResolversAgree | src/pef_action.cpp:1258-1270 | the test dispatcher and the trap sender agree on every selector, and the action process agrees with them from 1 up exactly except at the last destination |
| Destinations.SnmpStaysSnmp | src/snmp_notification.cpp:383-498 | with equal type arrays an alert sent as SNMP is dropped by the trap sender only when the destination cannot be sent a trap, and else gets a manager with the version of its type |
| SensorNumbers.NumberSensors | include/sdrutils.hpp:496-518 | the incremental numbering is the closed form on the first 765 sensors and raises exactly from 765 sensors on |
| SensorNumbers.SequentialIncreasing | include/sdrutils.hpp:496-518 | the closed form is strictly increasing |
| SensorNumbers.SequentialShape | include/sdrutils.hpp:496-518 | assigned numbers never have low byte 0xFF and never use LUN 2; the low byte is the index modulo 255 |
| SensorNumbers.AcceptsMeaning | include/sdrutils.hpp:462-477 | the strict test admits exactly the numbers of the closed form |
| SensorNumbers.NumberStrictly | include/sdrutils.hpp:371-491 | every acceptable supplied number goes to the first sensor that offers it, and nothing else is mapped |
| SensorNumbers.NumberingBijective | include/sdrutils.hpp:498-501 | the numbering of distinct paths pairs numbers and paths one to one |
| SensorNumbers.PathFromSensorNumber | include/sdrutils.hpp:730-762 | the lookup gives the number's path or nothing; with the OS sensor type the first path under /os/ when there is one |
| SensorNumbers.LookupsInverse | include/sdrutils.hpp:683-701 | on a numbering of distinct paths the lookups by path and by number undo each other, and a path without a number leads nowhere |
| SensorNumbers.OsLookup | include/sdrutils.hpp:742-753 | with the OS sensor type the number's own path is answered exactly when it is the first under /os/ |
| SensorCache.FilteredMeaning | include/sdrutils.hpp:252-270 | the filtered tree has the paths of exactly the sensors that a service other than Pmt offers, in the order of the answer |
| SensorCache.FilteredDistinct | include/sdrutils.hpp:252-270 | the filtered tree has distinct paths, all of them from the mapper's answer |
| SensorCache.SensorStatics.GetSensorSubtree | include/sdrutils.hpp:271-341 | new statics and result of a subtree call: the filtered answer when it fetches, the cached tree otherwise, nothing without a bus or after a failed fetch |
| SensorCache.SubtreeIsFiltered | include/sdrutils.hpp:271-341 | after any run whose last fetch did not fail, a subtree call hands out the filtered answer of its own or of the last fetch |
| SensorCache.SensorStatics.GetSensorNumMap | include/sdrutils.hpp:343-360 | new statics and result of a number map call, also when numbering raises |
| SensorCache.RunCoherent | include/sdrutils.hpp:271-360 | in every run the version is the fetch count modulo 65536, the tree that of the last fetch, and the map the numbering it was built from |
| SensorCache.MapIsCurrent | include/sdrutils.hpp:343-360 | after any run whose last fetch did not fail a returned map is the numbering of the most recent tree unless the version came round; it raises exactly when built for 765 sensors or more |
| SensorCache.MapIsCurrentSoon | include/sdrutils.hpp:355-360 | fewer than 65536 fetches between renumberings rule that exception out |
| SensorCache.SignalRefreshes | include/sdrutils.hpp:286-302 | the first number map call after a sensor signal returns the numbering of its own answer, or raises for 765 sensors or more, unless the version came round |
| SensorCache.MapStaysFixed | include/sdrutils.hpp:298-302 | a map stays the answer until the next invalidation, whatever is called |
| SensorCache.CallCaches | include/sdrutils.hpp:355-362 | after a map is returned or building one raises, tree, map and version are in place for the next call |
| SensorCache.SensorStatics.Invalidate | include/sdrutils.hpp:286-296 | a sensor signal drops the tree and nothing else |
| SensorCache.ViewsAgree | include/sdrutils.hpp:304-329 | after any run whose version has not come round a returned map numbers the tree that subtree calls see, except exactly when a failed fetch left an empty tree while the map stands for sensors |
| SensorCache.FailureSplitsViews | include/sdrutils.hpp:304-329 | a failed fetch leads there: subtree calls see no sensor while the map keeps the old numbering |
| SensorCache.HeldMapLookups | include/sdrutils.hpp:683-762 | in every run over answers with distinct paths the held map is one to one on the first 765 sensors it was built from, and the lookups undo each other on it |
| SensorNames.GetSensorNumNameMap | src/pef_config.cpp:52-73 | the flat map holds, per low byte, the name of the last sensor in ascending order |
| SensorNames.GetSensorNumNameMapByType | src/pef_config.cpp:75-98 | every type with sensors is grouped with the flat map of its own sensors |
| SensorNames.GetSensorNumNameMapForType | src/pef_config.cpp:100-139 | the list is the flat map of the type, or of all sensors after the synthetic entry, in ascending order |
| SensorNames.FlatMeaning | src/pef_config.cpp:64-70 | each key holds the sensor with the largest number of that low byte |
| SensorNames.ForTypeListsGroup | src/pef_config.cpp:127-136 | the list for a type is exactly the grouped map's entry for it, strictly ascending |
| SensorNames.SequentialFlat | src/pef_config.cpp:64-70 | for n sequential sensors the keys are those below min(n, 255), each with the sensor of largest congruent index |
| SensorNames.AllEntryIsAlone | src/pef_config.cpp:128-132 | the synthetic entry 255 never meets a sequentially numbered sensor |
| SensorNames.SplitPath | include/pef_utils.hpp:82-107 | type and name are recovered from a path composed of them |
| PostponeTimer.PostponeTimerCallback | include/pef_action.hpp:260-328 | arming n in 1..0xFD sets the countdown to n-1 down to 0 and then disarms; 0xFE sets it once; 0 and 0xFF do nothing |
| PostponeTimer.HandlingShows | include/pef_action.hpp:260-328 | taking up an arm message shows, step by step, exactly the values the callback sets |
| PostponeTimer.GateDecides | src/pef_action.cpp:1721-1736 | in a run whose states all have the timer armed in 1..0xFE or PEF disabled no event reaches filtering; in one whose states have neither every event taken up does |
| PostponeTimer.EventsConserved | src/pef_action.cpp:1665-1738 | every submitted event is taken up once, in order, through any mix of countdowns and writes |
| PostponeTimer.CountdownHolds | include/pef_action.hpp:293-312 | until its last second the countdown shows the seconds left, nothing is taken up, and armed changes only by a client's write |
| PostponeTimer.CountdownDisarms | include/pef_action.hpp:293-321 | after n seconds and one step, whatever clients did meanwhile, the timer is disarmed with the countdown at 0 and nothing taken up |
| PostponeTimer.RequestHonoured | include/pef_action.hpp:260-321 | a request to arm 1..0xFE stays in force until its own countdown or the next write exactly when no countdown is running and none is waiting |
| PostponeTimer.RequestEnds | include/pef_action.hpp:293-321 | its own countdown is over after exactly the steps it takes to get to the request, take it up and count down |
| PostponeTimer.IndefiniteStays | include/pef_action.hpp:273-291 | armed with 0xFE and clear of countdowns the timer keeps it until the next write, and no event reaches filtering |
| PostponeTimer.RearmIsLost | include/pef_action.hpp:313-321 | otherwise the property is overwritten with 0 before the request is even taken up |
| PostponeTimer.WaitingEventPasses | include/pef_action.hpp:313-321 | an event that waited for a countdown reaches filtering although the timer was armed again meanwhile |
| RetryConfig.RetrySettings.LoadFile | src/pef_action.cpp:1787-1806 | the load takes members in order, clamps from above, and stops at the first that cannot be converted |
| RetryConfig.RetrySettings.PutRetryCount | src/pef_action.cpp:1817-1835 | the setter's new state and the error it throws |
| RetryConfig.RetrySettings.PutTimeInterval | src/pef_action.cpp:1836-1854 | the setter's new state and the error it throws |
| RetryConfig.RetrySettings.PutAlertsLimit | src/pef_action.cpp:1855-1873 | the setter's new state and the error it throws |
| RetryConfig.RetrySettings.PutRetryEnable | src/pef_action.cpp:1810-1816 | the flag is always stored and saved |
| RetryConfig.RunBounded | src/pef_action.cpp:1787-1873 | the three limits hold in every run of writes, saves and restarts exactly when the members the first load takes fit |
| RetryConfig.StepEffect | src/pef_action.cpp:1817-1873 | limits change only while retry is enabled, and a written save loads back to the live settings |
| RetryConfig.SetterStores | src/pef_action.cpp:1810-1873 | with retry enabled and the value within 10, 3600 or 100 a setter stores it in its own field, and otherwise nothing changes; the flag is always stored |
| RetryConfig.LoadedValues | src/pef_action.cpp:1792-1799 | numbers from 0 up load as they are, up to 10, 3600 and 100 |
| RetryConfig.LoadBounded | src/pef_action.cpp:1792-1799 | loading gives limits in bounds exactly when each member taken is not negative or, for the two bytes, wraps to one in bounds |
| StateMask.StateMasks | include/sdrutils.hpp:1030-1051 | the two mask bytes are the ones for the states there are, 2 to the min(n, 15) minus 1 |

## Left out

- PerformPefAction: requires selectors from 1 up where a policy's type array is reached and has elements, because selector 0 makes the source index before it; the steps give such a selector no destination.
- EventFilteringProcess: requires lists with every filter property in its type, because a missing or mistyped one throws out of the process.
- CheckAlertPolicyTbl: reads an answered object without AlertPolicyGroupNum or with a mistyped property as one without the property, where the source throws past its handler.
- PerformAlert: likewise reads a mistyped Type or userName of a LAN object as missing, where the source throws past its handler.
- EventFilterCallback: requires the section to be missing, null or an array of objects with numbers under numeric keys; the callback's way through other documents is not modelled, and the same holds for the other callbacks and for publication.
- EntryNoOfPrinted: does not model numbers beyond the int range, where atoi is undefined.
- GetSensorNumMap: the cache is modelled with sequential numbering; strict numbering is modelled on its own and goes through the same cache.
- UpdateLanParamConfigValue: the moving cursor into the document is a path of keys, so writing in place is not modelled; failing to open the file for writing is left out.
- GetManagers: the SNMP user comes with its password decrypted, as an arbitrary answer.
- The validators of published properties: each write may be accepted or refused, and the ranges they enforce are not stated.
- Restarting the event filtering process, which loses the waiting signals.
- The change signal a client's write of an unchanged value may or may not cause: every accepted write queues one.
- SystemGUID, OEMParam and AlertStringTable publication, and the DestinationSelector value published from another key than it is saved under.
- Filling the LAN arrays up to the number of destinations, and cross-checking users against types.
- Alert texts, severities, time stamps, host names, address validation and mail contents.
- SNMP sessions, protocol data units and keys; encryption; reading SNMP configuration files.
- Statistics of sensors, whose instrumentation is compiled off, and the sensor type tables.

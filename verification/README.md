# Sea-Port-Monitor job and resource engine in Dafny

This project models the engine of Sea-Port-Monitor. The program loads a data file that describes ports and their docks, ships, persons and jobs. Each job then runs on its own thread. A job waits for its ship to dock and takes workers of the required skills from its port's pool. It then progresses in 100 ms ticks, and it finishes by giving its workers back and possibly sending its ship away. When a ship leaves its dock, the port sends away job-less ships at the head of its queue and docks the first queued ship that still has jobs.

The model is functional. Java object references become ids into the maps of an immutable `World` (`model.dfy`), and a `null` reference becomes `None`. Each `synchronized` Java method is one pure state transition. Execution is treated as sequential, and each method runs atomically.

| file | module | models |
|---|---|---|
| `model.dfy` | `Model` | the records of `Port`, `Dock`, `Ship`, `Person` and `Job`, and the world |
| `seqs.dfy` | `Seqs` | `ArrayList.remove(Object)`, ASCII lower-casing, distinctness |
| `shiprecord.dfy` | `ShipRecord` | `Ship.addWorkers`, `Ship.dock` |
| `person.dfy` | `Persons` | `Person` state, `isAvailable`, `assignJob`, `clearJobAndReturn` |
| `jobstate.dfy` | `JobState` | `Job.kill`, `cancel`, `toggleGoFlag` |
| `docking.dfy` | `Docking` | `Port.notifyOfDeparture`, `Dock.assignShip`/`getShip`/`notifyOfDeparture`, `Ship.leavePort` |
| `pool.dfy` | `Pool` | `Port.buildResourceMap`, `requestWorkers`, `returnWorker` |
| `ship.dfy` | `Ships` | the ship constructor's placement, `initiateJob`, `removeJob` |
| `job.dfy` | `Jobs` | the job constructor and `Job.run` as a step machine |
| `sorting.dfy` | `Sorting` | `String.compareTo`, comparators, `List.sort` as a stable sorted permutation, with the stability proved |
| `jobtable.dfy` | `JobTable` | `addJob`, the header sort, and the refresh pass of the table's update loop |
| `queries.dfy` | `Queries` | the searches and listings of `World` |
| `monitor.dfy` | `Monitor` | the post-load sweep, `killOldThreads`, the `sort*Data` helpers, `getCharSequence` |
| `loader.dfy` | `Loader` | `processDataFile` with `DataFileFormatException`, and the constructors as the loader runs them |
| `session.dfy` | `Session` | the load button listener that ties the loader, the port sort, the sweep and `killOldThreads` together |

Decisions that shape the model:

- Logical time. A job's duration is a whole number of milliseconds. The progress is `elapsed * 100 / duration`, using exact integer division. The real clock is not modelled.
- Loader input. The loader receives each line already split into fields. A number that `Double.parseDouble` or `Integer.parseInt` rejects arrives as `None`.
- Partial constructors. When a constructor stops midway, the objects it had already registered stay registered. Examples:
  - a dock whose port is missing;
  - a ship whose numbers fail to parse;
  - a job whose duration fails to parse.
- Job threads. A job whose constructor completed is `live`; its thread is started.
- Index maps. The loader's maps from file index to object behave like `HashMap.put`: a repeated index overwrites the earlier entry.
- Ship kinds. Cargo ships and passenger ships differ only by a kind tag, since the engine reads no cargo or passenger field.

## Model

| member | source | states |
|---|---|---|
| ShipRecord.AddWorkers | src/monitor/Ship.java:92-94 | the worker list keeps its old entries as a prefix and gains exactly the new workers behind them; nothing else on the ship changes |
| ShipRecord.DockAt | src/monitor/Ship.java:106-109 | docking sets the dock reference and leaves every other field of the ship alone |
| Persons.NewPerson | src/monitor/Person.java:18-26 | a loaded person is available at its home port with no current job |
| Persons.AssignJob | src/monitor/Person.java:40-43 | the person now works the job on the job's ship and is no longer available; name, skill and home are kept |
| Persons.ClearJobAndReturn | src/monitor/Person.java:45-48 | the person is available at the given port with no job; name, skill and home are kept |
| Persons.AssignThenReturn | src/monitor/Person.java:40-48 | assigning a job to an idle person at home and then returning the person home gives back the same person |
| JobState.Kill | src/monitor/Job.java:137-139 | the kill flag is set and nothing else about the job changes |
| JobState.Cancel | src/monitor/Job.java:120-123 | the job is killed and marked as cancelled for lack of resources; nothing else changes |
| JobState.ToggleGoFlag | src/monitor/Job.java:133-135 | the go flag flips and nothing else changes |
| JobState.ToggleTwice | src/monitor/Job.java:133-135 | toggling twice restores the job |
| Docking.LeadingIdleSpec | src/monitor/Port.java:43-53 | the count of purged ships covers exactly the job-less ships in front of the first queued ship that has jobs |
| Docking.AssignShip | src/monitor/Dock.java:35-38 | the dock and the ship point at each other; no other dock, ship, port, person or job changes |
| Docking.CascadeQueue | src/monitor/Port.java:41-55 | the recursive departure drops the leading job-less ships and the ship it docks from the queue |
| Docking.CascadeDocked | src/monitor/Port.java:43-53 | the ship the recursion docks is the first queued ship with jobs, or none |
| Docking.CascadeShips | src/monitor/Port.java:41-49 | the port's ship list loses the departing ship and every purged ship, as a multiset |
| Docking.PortDeparture | src/monitor/Port.java:41-55 | the freed dock takes the first queued ship with jobs, if there is one, and that ship records the dock |
| Docking.PortDeparturePort | src/monitor/Port.java:41-55 | among the ports only this port's queue and ship list change; persons, jobs and the port order do not |
| Docking.DockDeparture | src/monitor/Dock.java:41-46 | the dock is emptied before the cascade, so it ends holding the first queued ship with jobs or nothing |
| Docking.DockDeparturePort | src/monitor/Dock.java:41-46 | a dock departure changes the port's queue and ship list as the cascade does, and no person, job or other port |
| Docking.GetShipAfter | src/monitor/Dock.java:27-46 | after `assignShip(s)` the dock reports `s`; after a departure it reports nothing exactly when every queued ship is job-less, and otherwise the first queued ship with jobs |
| Docking.LeavePort | src/monitor/Ship.java:97-103 | the ship ends with no dock and no port; an undocked ship changes nothing else; a docked ship's dock passes to the next ship the cascade picks |
| Docking.LeaveKeepsPools | src/monitor/Ship.java:97-103 | leaving touches no person, no job, and no port's persons, pool or totals |
| Docking.LinkedCanLeave | src/monitor/Ship.java:97-103 | in a world whose dock and queue links hold, every ship can leave |
| Docking.LeaveUndockedLinked | src/monitor/Ship.java:97-103 | an undocked ship's departure keeps the docking invariant |
| Docking.LeaveDockedLinked | src/monitor/Ship.java:97-103 | a docked ship's departure keeps the docking invariant: docks and ships still point at each other, and queued ships are undocked and queued once |
| Pool.Build | src/monitor/Port.java:63-73 | the build loop appends each person to its skill's list and adds one to that skill's total, in load order; pool and totals share one key set |
| Pool.BuildResourceMap | src/monitor/Port.java:62-73 | each skill's list gains the port's persons of that skill in load order, and each total gains their count; nothing else on the port changes |
| Pool.FreshBuild | src/monitor/Port.java:62-73 | on an unbuilt port each skill's list is exactly the port's persons of that skill, the total is its length, and the keys are the skills present |
| Pool.NoPersonsNoPool | src/monitor/Port.java:62-73 | a port without persons keeps an empty pool after the build |
| Pool.BuildEstablishesInv | src/monitor/Port.java:62-73 | building the pool of a freshly loaded port with idle persons establishes conservation: a person is pooled exactly when it has no job, and the totals count persons per skill |
| Pool.AvailableWithinTotal | src/monitor/Port.java:66-71 | under conservation no skill has more persons available than its total |
| Pool.Heads | src/monitor/Port.java:119-128 | one chosen person per requirement: the head of that skill's list, repeats included |
| Pool.RequestWorkers | src/monitor/Port.java:93-139 | an empty pool answers false and changes nothing; a missing or too-often-required skill cancels the job and answers true; a feasible request with some empty list answers false and changes nothing; otherwise the heads are granted and the answer is true |
| Pool.GrantWorkersAtPort | src/monitor/Port.java:119-136 | a grant hands the ship heads of the port's own lists, so a ship whose workers were persons of the port still has only such workers |
| Pool.GrantIsGranted | src/monitor/Port.java:119-136 | a grant assigns exactly the heads to the job, removes each required skill's head from its list and no other list changes, and appends the heads to the ship's workers |
| Pool.RequestPreservesInv | src/monitor/Port.java:93-139 | every outcome of a request keeps the port's conservation invariant and leaves the totals unchanged |
| Pool.ReturnWorker | src/monitor/Port.java:146-150 | the person goes to the back of its skill's list and is available at the port with no job; nothing else changes |
| Pool.ReturnPreservesInv | src/monitor/Port.java:146-150 | returning a busy person of the port keeps conservation |
| Pool.DoubleReturnBreaksShape | src/monitor/Port.java:146-150 | the method has no guard: returning a person who is already pooled lists it twice |
| Pool.NoPersonsWaitForever | src/monitor/Port.java:98-101 | at a port with no persons every request answers false and changes nothing, even one that could never be met |
| Pool.RepeatedSkillTakesOne | src/monitor/Port.java:119-136 | requirements `[k, k]` take only the head of `k`'s list once, and that one person is listed twice among the ship's workers |
| Ships.PlaceShip | src/monitor/Ship.java:22-36 | a ship whose parent is a dock takes the dock and the dock's port; otherwise it joins the parent port's queue; either way the port lists it; with no port it stays registered but listed nowhere |
| Ships.InitiateJob | src/monitor/Ship.java:84-90 | a job without requirements starts without asking the port; otherwise the port's request decides; a refusal changes nothing |
| Ships.ReturnLoopPersons | src/monitor/Ship.java:73-77 | every listed worker that worked the job is back at the port without a job; every other person is unchanged |
| Ships.ReturnLoopPool | src/monitor/Ship.java:73-77 | each skill's list keeps its contents at the front and gains each returning worker of that skill behind them, once even if the worker is listed twice |
| Ships.RemoveJob | src/monitor/Ship.java:70-82 | the job leaves the ship's list; the ship loses its port and dock exactly when no job is left; otherwise ships and docks are unchanged |
| Ships.RemoveJobPersons | src/monitor/Ship.java:70-77 | after `removeJob` exactly the ship's workers of that job are back at the ship's port |
| Ships.RemoveJobPreservesInv | src/monitor/Ship.java:70-82 | `removeJob` keeps the conservation invariant of the ship's port (each worker still on the job goes back through `returnWorker`, a worker listed twice only once), and the port's persons and totals stay as they were |
| Ships.ReturnLoopConserves | src/monitor/Ship.java:73-77 | the return loop keeps a port's conservation invariant when every listed worker is one of its persons |
| Ships.RemoveJobPool | src/monitor/Ship.java:70-77 | after `removeJob` the port's lists keep their contents and gain the returned workers once each |
| Jobs.NewJob | src/monitor/Job.java:33-49 | the job joins its ship's list and records the ship's port; only a job whose duration parsed and whose ship has a port is live, waiting to dock at progress 0 with the go flag set and the kill flag clear |
| Jobs.Tick | src/monitor/Job.java:87-100 | with the go flag set one round adds 100 ms and reports running at the truncated percentage; without it the job is suspended and neither time nor progress moves |
| Jobs.Finish | src/monitor/Job.java:102-111 | a killed job ends at progress 0, cancelled unless it already lacked resources; any other job ends done at 100 |
| Jobs.TickMonotone | src/monitor/Job.java:93-96 | progress never goes down across running rounds |
| Jobs.ProgressOvershoots | src/monitor/Job.java:93-110 | with a 150 ms duration the second round reports 133 before the finish sets 100 |
| Jobs.TickCountCeil | src/monitor/Job.java:82-100 | from elapsed `e` the loop runs ceil((d - e) / 100) running rounds, and none once `e >= d` |
| Jobs.RunLoop | src/monitor/Job.java:82-100 | an undisturbed loop ends when time runs out, after exactly the counted rounds, running at the last reported percentage |
| Jobs.UndisturbedRun | src/monitor/Job.java:82-111 | a job never suspended or killed ticks ceil(d / 100) times and ends done at 100 |
| Jobs.ScheduledLoop | src/monitor/Job.java:82-100 | with the go flag toggled between rounds and no kill, only running rounds advance the time; the loop ends because time ran out exactly when it has run as many rounds as an undisturbed run, and the progress is the last running round's percentage |
| Jobs.ScheduleEnds | src/monitor/Job.java:82-100 | a schedule with at least that many running rounds lets the time run out |
| Jobs.SuspendedRun | src/monitor/Job.java:82-111 | a job suspended and resumed any number of times but never killed has run ceil(d / 100) rounds when its time is up, and ends done at 100 |
| Jobs.Step | src/monitor/Job.java:57-118 | a step of `run` changes no other job and no field of this one but status, progress and kill flag; a kill is never undone; the machine never returns to its start; it ends exactly at the finish of a loop whose time ran out or that was killed, with 100 and done, or 0 and cancelled or lacking resources |
| Jobs.StepPreservesInv | src/monitor/Job.java:57-118 | every step keeps the conservation invariant of the ship's port, and the ship either stays there with all its workers persons of that port or leaves it after its last job |
| Jobs.AcquireKeepsInv | src/monitor/Job.java:72-80 | an acquisition attempt keeps that invariant; granted workers come from the ship's port |
| Jobs.FinishKeepsInv | src/monitor/Job.java:102-115 | the finish and `removeJob` keep that invariant |
| Jobs.DockArrivalEnables | src/monitor/Job.java:62-68 | a job waiting for its ship to dock can go on once a dock takes the ship (`Jobs.Enabled` for the dock wait) |
| Jobs.StartStep | src/monitor/Job.java:63-70 | the dock wait is skipped exactly when the ship is docked or the job is killed; the job stays waiting to dock |
| Jobs.InitiateFrame | src/monitor/Ship.java:84-90 | `initiateJob` changes no job but this one, and this one at most by a cancellation |
| Jobs.Acquire | src/monitor/Job.java:72-80 | the acquisition step changes no other job and no field of this one but status and kill flag, and goes on to wait for resources or to the work loop at time 0 |
| Jobs.Work | src/monitor/Job.java:82-115 | a step of the work loop keeps to the job frame, and it ends the machine exactly when time is up or the job is killed, with 100 and done, or 0 and cancelled or lacking resources |
| Jobs.FinishJob | src/monitor/Job.java:102-115 | the finish leaves this job with its final status and progress, and changes no other job |
| Jobs.AcquireStep | src/monitor/Job.java:72-80 | the acquisition is tried even for a killed job; a refusal of a live job only marks it as waiting for resources; any other outcome starts the work loop at time 0 |
| Jobs.TickStep | src/monitor/Job.java:87-115 | the work loop changes only this job, and its one exit is the finish followed by `removeJob` for this job |
| Jobs.LackIsFinal | src/monitor/Job.java:103-123 | no step clears the kill flag or the lack-of-resources status of a job cancelled for lack of resources |
| Jobs.LackSurvivesInitiate | src/monitor/Job.java:72-80 | initiating such a job, whichever branch the request takes, leaves it killed and lacking resources |
| Sorting.StrLeOrder | src/monitor/Thing.java:19-21 | `String.compareTo` orders names totally, transitively and antisymmetrically |
| Sorting.Sort | src/monitor/JobTable.java:150-154 | the sort yields a permutation of its input, ordered by the comparator |
| Sorting.InsertStable | src/monitor/JobTable.java:150-154 | inserting an element puts it ahead of every element it ties with |
| Sorting.SortStable | src/monitor/JobTable.java:150-154 | the sort is stable: elements the comparator ranks equal keep their input order |
| JobTable.JoinLoop | src/monitor/JobTable.java:93-99 | the loop builds the requirements joined by ", ", with no separator after the last |
| JobTable.JoinEnds | src/monitor/JobTable.java:93-99 | the joined text starts with the first requirement and ends with the last |
| JobTable.AddJob | src/monitor/JobTable.java:81-113 | the job joins the display order; with a port its row shows port, ship and job names, "Port queue" or the dock name, the joined skills, progress 0, "Waiting..." and two disabled buttons; without a port it gets no row |
| JobTable.SortBy | src/monitor/JobTable.java:121-155 | a repeated SHIP or JOB click reverses the list and keeps the state; a PORT click after PORT-ascending sorts port-descending with ships ascending; any other PORT click sorts ascending; a new SHIP or JOB sort forgets the order; every outcome is a permutation |
| JobTable.ShipTwiceDescending | src/monitor/JobTable.java:121-144 | two SHIP clicks leave the jobs in descending ship order |
| JobTable.SameColumnTwice | src/monitor/JobTable.java:121-125 | two more clicks on the current SHIP or JOB column restore the table |
| JobTable.PortClicksAlternate | src/monitor/JobTable.java:130-141 | repeated PORT clicks alternate between ascending and descending |
| JobTable.LocationLabel | src/monitor/JobTable.java:178-183 | "Departed" without a port, "Port queue" without a dock, otherwise the dock's name |
| JobTable.StatusLabelsDistinct | src/monitor/JobTable.java:192-226 | the seven status texts are pairwise different, and the two cancelled texts belong exactly to the two cancellations |
| JobTable.Refresh | src/monitor/JobTable.java:173-227 | a refreshed row shows the job's location, the progress held within the bar's range 0..100 (an overshoot of 133 shows as 100), and the status; finished jobs have both buttons disabled, running ones both enabled with "Suspend", suspended ones read "Resume", waiting ones keep their buttons |
| JobTable.Pass | src/monitor/JobTable.java:162-237 | a killed loop stops; otherwise every row is refreshed, the first all-finished pass sets the completion flag, and the loop stops on a pass that finds all finished with the flag already set |
| JobTable.AllFinishedStopsInTwo | src/monitor/JobTable.java:230-236 | when every listed job has a finished row, two passes stop the loop |
| JobTable.MissingRowNeverStops | src/monitor/JobTable.java:173-236 | a listed job without a row is never counted, so the loop never stops by itself |
| Queries.SearchIsFilter | src/monitor/World.java:29-35 | the nested port-then-list loop returns exactly the matching entries of the concatenated per-port lists, in order |
| Queries.GetPorts | src/monitor/World.java:111-115 | the ports in load order, all existing |
| Queries.Listings | src/monitor/World.java:111-133 | an id is listed by `getDocks`, `getPersons` or among the searched ships exactly when some port lists it |
| Queries.SearchBySkill | src/monitor/World.java:26-38 | exactly the persons whose lowercased skill equals the query, in port and person order |
| Queries.SearchByName | src/monitor/World.java:49-80 | five lists: matching ports, docks, ships of both kinds, persons, and an empty fifth list |
| Queries.SearchShipByMaxX | src/monitor/World.java:88-108 | listed ships strictly below the value in length or width; nothing for any other attribute |
| Queries.GetShips | src/monitor/World.java:142-156 | listed ships of the wanted kinds, in port and list order |
| Queries.DepartedNeverFound | src/monitor/World.java:142-156 | as long as every ship a port lists names that port (`ShipsListed`), a ship with no port is found by no ship search |
| Monitor.LeaveDockedKeepsHome | src/monitor/Port.java:41-55 | a docked ship's departure keeps every listed, queued and docked ship naming its port and every port listing a ship once: the departing ship leaves its port's list, and the ship the cascade docks already names that port |
| Monitor.UndockedLeaveStaysListed | src/monitor/Ship.java:97-103 | a listed ship that leaves while undocked loses its port but stays in its port's list, so `ShipsListed` fails and the ship is still among the listed ships |
| Monitor.LeaveAtDock | src/monitor/SeaPortMonitor.java:263-266 | the ship at a dock of a port can leave; afterwards that dock is settled and every settled dock stays settled |
| Monitor.SweepDock | src/monitor/SeaPortMonitor.java:262-268 | one step of the sweep settles its dock, unsettles none, keeps ports, persons, pools and jobs, and keeps every ship at home (`ShipsHome`) |
| Monitor.SweepDocksSettles | src/monitor/SeaPortMonitor.java:262-268 | after the inner loop every dock of the port is settled |
| Monitor.SweepPortsSettles | src/monitor/SeaPortMonitor.java:261-269 | after the outer loop every dock of every port is settled |
| Monitor.PostLoadSweep | src/monitor/SeaPortMonitor.java:260-269 | the sweep changes only docks, ships and queues, keeps the links it needs, and keeps every ship at home |
| Monitor.PostLoadSettled | src/monitor/SeaPortMonitor.java:260-269 | after the sweep no dock of any port holds a ship without jobs |
| Monitor.KillOldThreads | src/monitor/SeaPortMonitor.java:890-904 | the table's loop is told to stop and exactly the jobs of ships still listed by a port are killed; nothing else changes |
| Monitor.KilledIff | src/monitor/SeaPortMonitor.java:890-904 | afterwards a job is killed exactly when it was killed before or its ship is still listed |
| Monitor.SortPortData | src/monitor/SeaPortMonitor.java:772-784 | an empty attribute is rejected; otherwise the ports are permuted into name order, descending for "Desc" |
| Monitor.SortDockData | src/monitor/SeaPortMonitor.java:788-800 | as for ports, on docks |
| Monitor.SortShipData | src/monitor/SeaPortMonitor.java:804-832 | "Name" sorts by name, the four dimensions by value, anything else is rejected; the result is a permutation in the requested direction |
| Monitor.SortPersonData | src/monitor/SeaPortMonitor.java:836-853 | an empty attribute is rejected; "Skill" sorts by skill and any other attribute by name |
| Monitor.CharSequence | src/monitor/SeaPortMonitor.java:857-863 | `n` copies of `c`, none when `n` is not positive |
| Loader.ParseNatToString | src/monitor/DataFileFormatException.java:19 | the line number printed in a message reads back as the same number |
| Loader.FormatMessageLine | src/monitor/DataFileFormatException.java:13-32 | error counts 0 and 1 give a message naming the line, count 2 gives the generic notice, higher counts give the empty message |
| Loader.NewPort | src/monitor/Port.java:24-29 | the port joins the world's list and the index map, with nothing built |
| Loader.NewDock | src/monitor/Dock.java:16-21 | the dock is registered first; with its port it joins that port's docks, otherwise it is a broken reference and listed by no port |
| Loader.NewShip | src/monitor/Ship.java:22-42 | the ship is registered and placed as its parent says; a missing port is a broken reference and a bad number is a format error after the placement |
| Loader.NewPerson | src/monitor/Person.java:18-26 | a missing port changes nothing and is a broken reference; otherwise the person joins its port, idle |
| Loader.NewJob | src/monitor/Job.java:33-49 | a missing ship changes nothing; otherwise the job joins its ship, and it is listed in the table exactly when its duration parsed |
| Loader.Construct | src/monitor/SeaPortMonitor.java:448-477 | blank and comment lines create nothing; an unknown token is a format error; every constructor leaves the counters and dialogs alone |
| Loader.PortlessJobListed | src/monitor/JobTable.java:81-84 | a job of a portless ship is listed in the table without a row, and the load reports a broken reference |
| Loader.Handle | src/monitor/SeaPortMonitor.java:479-499 | a format error adds one to the error count; a broken reference does not, and it sets the reported flag |
| Loader.Process | src/monitor/SeaPortMonitor.java:434-503 | the line counter goes up before the blank check; one line adds at most one error; the load invariant is kept, and so is `ShipsHome` |
| Loader.ProcessLines | src/monitor/SeaPortMonitor.java:434-503 | the counter ends at the number of lines; errors never decrease; the load invariant is kept, and so is `ShipsHome` |
| Loader.DialogsCapped | src/monitor/SeaPortMonitor.java:482-499 | at most three format dialogs and at most one broken-reference dialog are shown, and the third format dialog is the generic notice |
| Loader.BuildAll | src/monitor/SeaPortMonitor.java:507-509 | each loaded port's pool is built once and nothing else changes |
| Loader.BuildAllPools | src/monitor/SeaPortMonitor.java:507-509 | after the builds every port satisfies the conservation invariant |
| Loader.LoadFile | src/monitor/SeaPortMonitor.java:422-510 | a whole file yields a world whose references hold, whose pools are conserved, whose table lists distinct existing jobs, unsorted, and in which every ship a port lists, queues or berths names that port and is listed there once |
| Loader.PlacedHome | src/monitor/Ship.java:29-38 | a new ship is listed once, at the port it names, and waits in that port's queue or at one of its docks |
| Loader.ConstructHome | src/monitor/SeaPortMonitor.java:448-477 | every constructor keeps every ship at home |
| Session.Previous | src/monitor/SeaPortMonitor.java:183-186 | unless this is the first load, the previous world's listed jobs are killed |
| Session.AfterLoad | src/monitor/SeaPortMonitor.java:236-271 | the load completes exactly when the port sort finds every listed job's port and there is a first port; a completed load is sorted by port, swept and conserved; otherwise the loaded world stays unswept |
| Session.LoadButtonHome | src/monitor/SeaPortMonitor.java:182-280 | every press of the load button keeps every ship at home, so `ShipsListed` holds after it |
| Session.LoadButton | src/monitor/SeaPortMonitor.java:182-280 | an empty name keeps the old world with its jobs killed; an unreadable file leaves an empty world and table; a readable one completes exactly when its load does; only completion clears the first-load flag |

## Left out

- Threads and monitors. `new Thread`, `wait`/`notifyAll`, the sleeps and the `testMode` delays are not modelled, and neither are the polling loops of the job table and the resource panel. Each method runs as one atomic step under a sequential scheduler. This is an assumption: `requestWorkers` locks the pool map while `returnWorker` locks the port. The job step machine lets a resource wait end at any time, which covers both a spurious wake-up and a broadcast. A dock wait ends only once the ship is docked.
- Floating point. Durations are integer milliseconds, and progress uses exact integer division. The `(long)` and `(int)` casts are not modelled. Ship dimensions are `real` and are only compared.
- Parsing. `Scanner` tokenising, `nextInt`, and `InputMismatchException`/`NoSuchElementException` on short lines are not modelled. The loader receives parsed lines with a `None` for each number that fails to parse. A ship whose dimensions fail to parse keeps `NoDims`, not the dimensions read before the bad field.
- Swing. Dialog windows, radio buttons, the port resource panel, the tree, the formatted output, renderers and editors are left out. Dialogs are kept as a list of (line, text) records. Between `processDataFile` and the port sort, the display code (SeaPortMonitor.java:208-234) is assumed not to throw.
- Jobs during the load. A job's thread starts in its constructor, before the pools are built. Loading is modelled as one uninterrupted transition, and the jobs run afterwards.
- I/O. File access is modelled by `Session.Source`: no name, an unreadable file, or the lines of a readable one.
- Strings. Lower-casing covers ASCII letters only. Characters are Dafny `char`, not UTF-16 code units.
- Jobs.StepPreservesInv: covers the stepping job's own ship. It does not show that other ships at the same port keep their workers at that port.
- Queries.DepartedNeverFound: needs `ShipsListed`. Loads and the sweep keep that hypothesis (`Session.LoadButtonHome`). A queued ship whose last job ends breaks it (`Monitor.UndockedLeaveStaysListed`).
- Session.AfterLoad: when the port sort throws, `List.sort` may already have reordered part of the list. The model keeps the table in load order instead.
- Session.InterruptedLoadKeepsJobs: states only that the next load kills none of the interrupted load's jobs. It says nothing about what those jobs do meanwhile.
- `testMode`, `getFormattedOutput`, the search-string builders, `InvalidSearchSortException` beyond its message, `PortResourcePanel.java`, `PortTree.java` and `ShipDetailsFrame.java` are not part of this model.

## Notes on the code

Several lemmas record places where the code does less than its comments suggest.

- `Pool.RepeatedSkillTakesOne`: a requirement list that names a skill twice reselects that skill's head. Only one person is assigned, and it is listed twice on the ship (Port.java:119-135).
- `Pool.NoPersonsWaitForever`: a port without persons keeps an empty pool map. Its jobs wait forever and are never cancelled for lack of resources (Port.java:98-101).
- `Jobs.ProgressOvershoots`: the last tick can report progress above 100 before the finish sets it to 100 (Job.java:96, 109). The job table's progress bar holds such a value at 100 (`JobTable.Refresh`, JobTable.java:186).
- `Pool.DoubleReturnBreaksShape`: `returnWorker` does not check that the person was away.
- `JobTable.MissingRowNeverStops` and `Loader.PortlessJobListed`: a job of a ship with no port is listed without a row. The update loop never counts that job, so it never stops by itself.
- `Session.AfterLoad` and `Session.InterruptedLoadKeepsJobs`: with two or more listed jobs, one job without a port makes the port sort throw (SeaPortMonitor.java:237). A file without ports makes selecting the first port button throw (line 243). Either way the listener stops before the sweep and keeps the first-load flag, so the next load kills none of this load's jobs.
- `Monitor.UndockedLeaveStaysListed`: `leavePort` notifies the port only through a dock (Ship.java:97-103). Only `Port.notifyOfDeparture` removes a ship from the port's list (Port.java:42). A queued ship whose last job ends, for instance one killed before it docks (`Ships.RemoveJob`, Ship.java:70-82), therefore loses its port but stays in the port's list and queue. Every ship search still finds it. It leaves the list and the queue only when a later departure at that port reaches it at the head of the queue and drops it as a ship without jobs.
- `Queries.SearchByName`: the method's comment lists five groups with cargo and passenger ships apart. The code puts ships of both kinds in the third list, persons in the fourth, and leaves the fifth empty. The model follows the code.

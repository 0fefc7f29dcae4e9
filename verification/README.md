# A verified model of OpenRTI's federate side and of its data plumbing

OpenRTI is a run-time infrastructure for the High Level Architecture (IEEE 1516.1-2010): the
middleware through which simulations ("federates") declare what they publish and subscribe to,
and exchange object instances, attribute updates and interactions. The model covers:

- the declaration management and object management services of one federate (sections 5.2, 5.3,
  5.6, 5.7, 6.2 to 6.9, 6.14 and 6.15 of the standard): `Declarations`, `FederateModel`, `Services`,
  `Announcements`, `Replay`, `HandleLedger`, `KnownInstances`, `ClassWalk`, and the classes of
  `Ambassador`, which update their fields and vectors in place as the code does;
- the growth of the class tree with inherited attributes: `ClassTree`, and `TreeOfClasses` for its
  agreement with the runs of a federate;
- the two-thread handshake of the timeout watchdog: `Watchdog`;
- the handle allocator and its replicas: `HandleAllocator`;
- the byte streams of the wire format: `DataStream`;
- the chunked byte buffer and its iterators: `ByteBuffer`;
- the object model builder and the two readers that drive it: `ModuleBuilder`, `FedReader`,
  `FedDocument`, `FddReader`;
- the server's message and operation queue: `ServerQueue`.

Shape: where the code changes state, a Dafny class or a method with a loop does, and its
`ensures` ties the new state to a function of the old one. The main results are lemmas about runs
of those functions. `FederateModel.Step` is the state change of one service call or callback;
every service method of `Ambassador.Ambassador` is proved to perform exactly that step, so the
run theorems of `Replay`, `Announcements`, `HandleLedger` and `KnownInstances` are about the
methods. `Services` says of each step, by the state before and after, when it is refused, what
it changes and what it sends.

Levels are ordered as the code relies on it through `std::max`: Unpublished below Published, and
Unsubscribed below SubscribedPassive below SubscribedActive.

## What turned out not to hold

Each of these is kept as the code has it; there is a lemma at an input where it fails and a theorem
that says exactly when it holds.

- `unsubscribeObjectClassAttributes` can announce Unsubscribed for attribute 0 although the
  class-level flag still subscribes it, and a class that a module adds during the execution takes
  over its parent's levels without a message. The effective publications and subscriptions can be
  rebuilt from the messages throughout a run if and only if neither happens in the run
  (`Replay.PublicationReplay`, `Replay.SubscriptionReplay`; runs that fail in
  `Replay.MisleadingRunExists` and `Replay.CopyingRunExists`).
- `unsubscribeObjectClass` lists attribute 0 twice exactly when the class flag is above a
  still declared attribute 0 (`Declarations.UndeclareAllRepeatsPrivilege`, a run from the start in
  `Replay.RepeatingRunExists`).
- The two forms of `AbsTimeout::isExpired` disagree exactly when the clock stands at the shifted
  deadline (`Watchdog.ExpiryFormsAgree`, an input in `Watchdog.ExpiryFormsDisagree`).
- `byte_size` is the number of bytes between its arguments only if their offsets in their chunks
  are equal (`ByteBuffer.ByteSizeIsDistance`, an input in `ByteBuffer.ByteSizeMisses`), and
  `operator==` compares flat positions except across empty chunks
  (`ByteBuffer.EqualityIsFlatEquality`, an input in `ByteBuffer.EmptyChunkBetween`).
- `put` does not check its handle, and one from at or beyond the watermark breaks the allocator
  (`HandleAllocator.Allocator.Put`, an input in `HandleAllocator.UntakenPutBreaks`).
- Replaying the sent insert and delete messages gives the instances that this federate owns unless
  somebody else removes one of them, which sends no delete message (`Announcements.FederationHearsOwned`;
  a run that fails in `Announcements.TakenAwayExists`).
- An insert message that is dropped because nothing at or above its class is subscribed sends no
  release message. The handle enters this federate's accounts if and only if the instance is
  delivered (`HandleLedger.InsertCountsIfDelivered`, a dropped one in `FreshDropsInserts`).
- The XML reader takes the end of an element inside an ignored one, if it has the ignored one's
  name, for the end of the ignored one. It skips the content of an ignored element if and only if
  that has no such element (`FddReader.IgnoredExactly`), and a document that has one is never
  accepted (`FddReader.DocumentRead`, a rejected one in `FddReader.NestedIgnoredRejected`). If the
  document also repeats the root's name, the reader may look at the top of an empty stack; without
  that, or without such an ignored element, it never does (`FddReader.NoUnderflow`, an input in
  `FddReader.RepeatedRootUnderflows`).
- The XML reader accepts a nested object class without a name, of which name completion then takes
  the first name. Name completion finds what it asserts if and only if each nested object class has
  exactly one name leaf (`FddReader.DocumentCompletable`, an input in
  `FddReader.NamelessClassAccepted`).
- The search for inherited parameter and attribute names in `validate`
  (src/OpenRTI/FOMStringModuleBuilder.h:341 and :374) never runs, as its guard is false from the
  start (`ModuleBuilder.ClassList.SearchInheritedMembers`). A validated list has unique names along
  every path if and only if the pushed one had (`ModuleBuilder.RootKeepsUniqueness`; inputs in
  `ModuleBuilder.RepeatedMembersAccepted`), and for object classes also none below the root that
  repeats the root's one attribute (`ModuleBuilder.FixedRootUniqueness`).
- The comment at src/OpenRTI/FOMStringModuleBuilder.h:365-369 says that the resize keeps what the
  root class had; it drops all attributes but the first, and the first gets the standard name
  (`ModuleBuilder.ClassList.FixRootAttributes`). Only the name changes if and only if there is one
  attribute (`ModuleBuilder.FixDropsOthers`, with an input).

## Model

| member | source | states |
|---|---|---|
| `Declarations.CompactDelta` | src/OpenRTI/Ambassador.h:789-820 | The in-place compaction keeps each attribute whose effective level the request changed exactly once and no other, duplicates and attribute 0 included |
| `Declarations.CompactEffective` | src/OpenRTI/Federate.cpp:462-483 | After a compaction the listed attributes are at the requested level, attribute 0 at least at the class flag, and all others where they were |
| `Declarations.DeclareEffective` | src/OpenRTI/Ambassador.h:789-820 | A publish or subscribe request leaves each listed attribute at the requested level even when the loop skips a listed attribute 0, attribute 0 never below it, and all others alone |
| `Declarations.DeclareExactDelta` | src/OpenRTI/Ambassador.h:789-820 | The request message lists every attribute whose effective level changed, each once, and carries the level that each of them now has |
| `Declarations.UndeclareAllDelta` | src/OpenRTI/Ambassador.h:623-635 | Unpublishing or unsubscribing a class switches everything off and announces exactly what was on |
| `Declarations.UndeclareAllRepeatsPrivilege` | src/OpenRTI/Ambassador.h:845-852 | The announcement lists attribute 0 twice if and only if the class flag was above a still declared attribute 0 |
| `Declarations.UndeclareDelta` | src/OpenRTI/Ambassador.h:901-920 | The message lists exactly what changed, each once, and its level is right if and only if attribute 0 does not uncover a weaker class flag |
| `Replay.DeltaRebuilds` | src/OpenRTI/Ambassador.h:572-581 | A listener that applies one message rebuilds the new effective levels if and only if the message carries the right level for all it names |
| `Replay.DeltaLevel` | src/OpenRTI/Ambassador.h:529-934 | Of all six declaration services only an unsubscription that uncovers a weaker class flag sends a level that its attributes do not have |
| `Replay.OtherCallsQuiet` | src/OpenRTI/Ambassador.h:1134-1666 | No object management call changes a declaration or sends a declaration message |
| `Replay.DeclarationKnown` | src/OpenRTI/Ambassador.h:529-934 | One declaration call keeps publications known; it keeps subscriptions known if and only if it does not uncover a weaker class flag |
| `Replay.StepKnown` | src/OpenRTI/Ambassador.h:529-934 | The same for every call and every arrival of a class or attribute, with the exact condition of each |
| `Replay.PublicationReplay` | src/OpenRTI/Ambassador.h:529-685 | In runs of any calls over a class tree that may grow, replaying the sent messages from nothing gives the effective publication of every attribute of every class at every moment if and only if no class arrives below one with a declared attribute; always on a fixed tree |
| `Replay.SubscriptionReplay` | src/OpenRTI/Ambassador.h:752-934 | Replaying gives the effective subscriptions at every moment of such a run if and only if no class arrives below one with a subscribed attribute and no call uncovers a weaker class flag |
| `Replay.OneKindReplays` | src/OpenRTI/Ambassador.h:752-934 | In runs that use one `active` flag the replay of subscriptions is exact at every moment unless a class arrives below one with a subscribed attribute; always on a fixed tree |
| `Replay.MisleadingRunExists` | src/OpenRTI/Ambassador.h:901-920 | On any class tree there is a four-call run from the start after which the replay of subscriptions is wrong |
| `Replay.RepeatingRunExists` | src/OpenRTI/Ambassador.h:845-852 | On any class tree there is a four-call run from the start whose last message lists attribute 0 twice |
| `Replay.CopyingRunExists` | src/OpenRTI/Federate.cpp:439-454 | On any class tree, publishing attribute 0 for itself and letting a class arrive below makes the replay of publications wrong |
| `Replay.ArrivalKnown` | src/OpenRTI/Federate.cpp:439-454 | A listener that knew a side still knows it after classes or attributes arrive if and only if no declared level was copied |
| `Replay.ReplayWidens` | src/OpenRTI/Federate.cpp:1069-1110 | Messages about classes that were there say the same to a listener that knows more classes |
| `Replay.StepFits` | src/OpenRTI/Ambassador.h:529-934 | Every message ever sent is about classes and attributes that exist |
| `HandleLedger.GrantEach` | src/OpenRTI/Federate.cpp:1167-1174 | Handles granted in one message enter the free pool, each entering the accounts once |
| `HandleLedger.ReserveEach` | src/OpenRTI/Federate.cpp:1195-1199 | The same for reserved names |
| `HandleLedger.ReleasingEach` | src/OpenRTI/Ambassador.h:866-875 | Releasing several instances takes each out of the maps and names it in one message |
| `HandleLedger.TakeReservedEach` | src/OpenRTI/Federate.cpp:1207-1218 | Taking several reserved names yields each name's own handle once and leaves the other names |
| `HandleLedger.StepAccounted` | src/OpenRTI/Ambassador.h:1134-1242 | Every call keeps the maps mutually inverse and the pools disjoint, and moves each handle from grant to holder to release without loss or duplication |
| `HandleLedger.HandlesConserved` | src/OpenRTI/Ambassador.h:1134-1242 | In every run against a server that grants unused handles and names, what was granted is what is held plus what was released, handle by handle |
| `HandleLedger.EachGrantHeldOrReleased` | src/OpenRTI/Ambassador.h:3890-3905 | A handle granted once is in exactly one of free pool, reserved names and known instances, or else in exactly one release message |
| `HandleLedger.RegisterInsertsNew` | src/OpenRTI/Federate.cpp:1140-1152 | The freshness asserts of the instance insertion cannot fire for a handle from the pools, after any run |
| `HandleLedger.InsertCountsIfDelivered` | src/OpenRTI/Ambassador.h:4051-4070 | An insert message sends nothing, and its handle is from then on this federate's to give back if and only if a class at or above the sent one is subscribed |
| `HandleLedger.FreshDropsInserts` | src/OpenRTI/Ambassador.h:4059-4064 | A federate that has just joined forgets every insert message without a trace |
| `KnownInstances.UnsubscribedJustified` | src/OpenRTI/Ambassador.h:922-934 | An unsubscription leaves no instance behind that is neither owned nor known at a subscribed class |
| `KnownInstances.StepJustified` | src/OpenRTI/Ambassador.h:823-934 | Every call keeps that: discover, register, subscribe, both unsubscriptions, delete and remove, and so does every arrival of a class or attribute |
| `KnownInstances.InstancesStayJustified` | src/OpenRTI/Ambassador.h:4051-4088 | In every reachable state each known instance is owned here or known at a class that is still subscribed |
| `KnownInstances.UnsubscribeForgets` | src/OpenRTI/Ambassador.h:864-934 | Either unsubscription forgets exactly the instances that are not owned here and whose class is then no longer subscribed, and leaves all others as they are |
| `ClassWalk.NearestIsNearest` | src/OpenRTI/Ambassador.h:4055-4069 | The delivery class is the nearest subscribed ancestor-or-self, and there is none exactly when nothing above is subscribed |
| `ClassWalk.DeliverInteraction` | src/OpenRTI/Ambassador.h:4157-4171 | The delivery loop ends and finds that class; an unknown class drops the interaction |
| `FederateModel.DeltaNames` | src/OpenRTI/Ambassador.h:529-934 | Each of the six declaration services announces exactly the attributes whose effective level it changed, and a subscription leaves its class subscribed |
| `FederateModel.StepShape` | src/OpenRTI/Federate.cpp:462-546 | No call changes the class tree or a class's number of attributes, only a class or attribute that arrives |
| `FederateModel.ArrivalKeepsTree` | src/OpenRTI/Federate.cpp:412-454 | An arriving class or attribute leaves the levels of all that was there alone, adds undeclared attributes only, and changes nothing else of the federate |
| `FederateModel.UnsubscribedFrame` | src/OpenRTI/Ambassador.h:864-875 | Releasing instances after an unsubscription leaves all declarations as the unsubscription set them |
| `Services.DeclarationAnswers` | src/OpenRTI/Ambassador.h:529-934 | A declaration service is refused if and only if the class is not there or lists an attribute that it does not have, with the error of each, and a refusal changes nothing |
| `Services.DeclarationDoes` | src/OpenRTI/Ambassador.h:529-934 | An accepted one changes only its side of its class, to the flag and the effective levels that it asks for; it sends one announcement of exactly what changed, or none if nothing did, and then one release for each instance that it forgets, by ascending handles |
| `Services.AnnouncedAttributes` | src/OpenRTI/Ambassador.h:1254-1262 | A registration lists attribute k, once and in order, if and only if its effective publication is not Unpublished |
| `Services.RegisterDoes` | src/OpenRTI/Ambassador.h:1220-1285 | The exact condition of each refusal; an accepted registration takes the first free name with its handle, owns exactly the published attributes, and announces class, name and these attributes, after asking for one more handle |
| `Services.RegisterNamedDoes` | src/OpenRTI/Ambassador.h:1287-1377 | The same for a given name, which uses up its reservation or needs the server's answer where that is allowed |
| `Services.DeleteDoes` | src/OpenRTI/Ambassador.h:1636-1666 | Done if and only if the instance is known and owned here; then the delete message and the release go out, in this order, and the instance is forgotten; each refusal has its condition and changes nothing |
| `Services.ReleaseNamesDoes` | src/OpenRTI/Ambassador.h:1191-1218 | All names are given back, in name order in one message, if all are reserved, and none otherwise |
| `Services.ReleaseNameDoes` | src/OpenRTI/Ambassador.h:1134-1157 | The same for one name |
| `Services.GrantsDo` | src/OpenRTI/Federate.cpp:1167-1199 | Granted pairs enter the free pool and reserved pairs the reserved names, the last one where a name comes twice; all else stays and nothing is sent |
| `Services.InsertDoes` | src/OpenRTI/Ambassador.h:4051-4070 | An insert message changes nothing if the instance is known or nothing at or above the class is subscribed; otherwise the instance is known, without any owned attribute, at the nearest subscribed class |
| `Services.RemoveDoes` | src/OpenRTI/Ambassador.h:4072-4088 | A remove message forgets a known instance and gives its handle back |
| `Announcements.FederationHearsOwned` | src/OpenRTI/Ambassador.h:1220-1666 | In every run against a server that grants unused handles, replaying the sent insert and delete messages gives, at every moment, exactly the owned instances with their names, classes and owned attributes, if and only if nobody else removes one that is owned here |
| `Announcements.StepHeard` | src/OpenRTI/Ambassador.h:1220-1666 | The same for one call of any kind |
| `Announcements.TakenAwayExists` | src/OpenRTI/Ambassador.h:4072-4088 | On any class tree there is a four-call run after which the federation has heard of an instance that is owned nowhere here |
| `Announcements.DeletionsAreAnnounced` | src/OpenRTI/Ambassador.h:1655-1665 | In every run, whatever the server does, there are as many delete messages for a handle as deletions of it that were done, and each is directly followed by the release of its handle |
| `Ambassador.ObjectClass.SetPublicationType` | src/OpenRTI/Federate.cpp:534-546 | Reports whether setting the class flag changed the effective class level |
| `Ambassador.ObjectClass.SetSubscriptionType` | src/OpenRTI/Federate.cpp:485-497 | The same for subscriptions |
| `Ambassador.ObjectClass.SetAttributePublicationType` | src/OpenRTI/Federate.cpp:505-526 | Reports whether setting one attribute's level changed its effective level |
| `Ambassador.ObjectClass.SetAttributeSubscriptionType` | src/OpenRTI/Federate.cpp:462-483 | The same for subscriptions |
| `Ambassador.ObjectClass.Below` | src/OpenRTI/Federate.cpp:439-454 | A class that arrives below another one copies that one's attributes with their levels; its own flags start undeclared |
| `Ambassador.Ambassador.InsertObjectClass` | src/OpenRTI/Federate.cpp:1069-1104 | A class that arrives during the execution, as one step of the run |
| `Ambassador.ObjectClass.UnpublishAll` | src/OpenRTI/Ambassador.h:614-625 | Switches the class and all its attributes off in handle order and collects what changed |
| `Ambassador.ObjectClass.UnsubscribeAll` | src/OpenRTI/Ambassador.h:845-852 | The same for subscriptions, with the repeated attribute 0 where the code has it |
| `Ambassador.CompactTurn` | src/OpenRTI/Ambassador.h:801-809 | One turn of the two-iterator loop keeps the collected handles, the changes made and the untouched rest in step |
| `Ambassador.ObjectClass.CompactPublications` | src/OpenRTI/Ambassador.h:565-575 | The two-iterator loop overwrites the vector from its front with the changed handles and cuts off the rest |
| `Ambassador.ObjectClass.CompactSubscriptions` | src/OpenRTI/Ambassador.h:801-812 | The same for subscriptions |
| `Ambassador.Ambassador.PublishObjectClassAttributes` | src/OpenRTI/Ambassador.h:529-590 | The service with its error checks, its message and all state it changes, as one step of the run |
| `Ambassador.Ambassador.UnpublishObjectClass` | src/OpenRTI/Ambassador.h:592-636 | As above |
| `Ambassador.Ambassador.UnpublishObjectClassAttributes` | src/OpenRTI/Ambassador.h:638-685 | As above |
| `Ambassador.Ambassador.SubscribeObjectClassAttributes` | src/OpenRTI/Ambassador.h:752-821 | As above |
| `Ambassador.Ambassador.UnsubscribeObjectClass` | src/OpenRTI/Ambassador.h:823-876 | As above, including the instances it releases, in handle order |
| `Ambassador.Ambassador.UnsubscribeObjectClassAttributes` | src/OpenRTI/Ambassador.h:878-934 | As above |
| `Ambassador.Ambassador.ReleaseUnownedInstances` | src/OpenRTI/Ambassador.h:866-875 | The loop that erases from the map it iterates visits every instance and releases exactly the unowned ones of the class |
| `Ambassador.Ambassador.ReleaseObjectInstance` | src/OpenRTI/Ambassador.h:3890-3905 | Erases the instance from both maps and sends one release message |
| `Ambassador.Ambassador.InsertObjectInstance` | src/OpenRTI/Federate.cpp:1140-1152 | Enters a new handle and name in both maps, with the ownership that publication gives |
| `Ambassador.Ambassador.EraseObjectInstance` | src/OpenRTI/Federate.cpp:1155-1165 | Takes the handle and its name out of both maps, and ignores unknown handles |
| `Ambassador.Ambassador.ReleaseObjectInstanceName` | src/OpenRTI/Ambassador.h:1134-1157 | Gives a reserved name back, or reports that it is not reserved |
| `Ambassador.Ambassador.ReleaseMultipleObjectInstanceName` | src/OpenRTI/Ambassador.h:1191-1218 | Gives back all names of a set in name order in one message, or none of them |
| `Ambassador.Ambassador.RegisterObjectInstance` | src/OpenRTI/Ambassador.h:1220-1285 | Registers under the first free name, or reports class, publication or pool errors |
| `Ambassador.Ambassador.RegisterNamedObjectInstance` | src/OpenRTI/Ambassador.h:1287-1377 | Registers under a reserved name or one reserved on the spot, with all its refusals |
| `Ambassador.Ambassador.DeleteObjectInstance` | src/OpenRTI/Ambassador.h:1636-1666 | Deletes an owned instance: delete message first, then the release |
| `Ambassador.Ambassador.InsertObjectInstanceArrived` | src/OpenRTI/Ambassador.h:4051-4070 | Discovers at the nearest subscribed class, drops when there is none, ignores duplicates |
| `Ambassador.Ambassador.RemoveObjectInstanceArrived` | src/OpenRTI/Ambassador.h:4072-4088 | Forgets a known instance and gives its handle back |
| `ClassTree.AlreadyThere` | src/OpenRTI/Federate.cpp:418-419 | The early return is sound: below a class that has the attribute every class has it, also in the middle of an insertion higher up |
| `ClassTree.FederateClasses.InsertAttribute` | src/OpenRTI/Federate.cpp:412-437 | The recursion ends and gives the attribute to the class and all its descendants and to no other class |
| `ClassTree.FederateClasses.InsertObjectClass` | src/OpenRTI/Federate.cpp:1069-1110 | Loading a class keeps the tree's shape and inheritance downward closed and gives the class its own and its inherited attributes |
| `ClassTree.AttributesAreInherited` | src/OpenRTI/Federate.cpp:439-454 | After any sequence of class and attribute insertions with parents first, a class has exactly the attributes declared on it or on an ancestor |
| `ClassTree.LoadTwice` | src/OpenRTI/Federate.cpp:1069-1110 | Loading the same class again changes nothing |
| `ClassTree.AncestorsAreOlder` | src/OpenRTI/Federate.cpp:1100-1104 | Ancestors were inserted before their descendants, so every walk towards the root ends |
| `ClassTree.ThroughSomeChild` | src/OpenRTI/Federate.cpp:433-436 | The child lists reach exactly the descendants that the parent links say |
| `TreeOfClasses.AttributeGoesDown` | src/OpenRTI/Federate.cpp:412-437 | An attribute that arrives during a run changes the classes of the federate exactly as the recursion down the class tree does |
| `TreeOfClasses.ClassIsAttached` | src/OpenRTI/Federate.cpp:1098-1104 | A class that arrives below another one becomes the last child in the tree, with its parent's attributes |
| `TreeOfClasses.OwnAttributesArrive` | src/OpenRTI/Federate.cpp:1105-1110 | Its own attributes then arrive like any others |
| `TreeOfClasses.AboveAlike` | src/OpenRTI/Federate.cpp:433-436 | Both views of the class tree agree on what is above a class |
| `Watchdog.NoDeadlock` | src/OpenRTI/AbsTimeout.cpp:25-143 | In every interleaving, while a call or the destructor is under way, one of the threads can move without a timeout or a spurious wake-up |
| `Watchdog.CallEnds` | src/OpenRTI/AbsTimeout.cpp:25-143 | In every run from any reachable state through which a call or the destructor stays in progress, with any clock ticks, timeouts and spurious wake-ups, the two threads take fewer than 334 steps plus 11 for each wait of the watchdog and 32 for each wait of the caller that ended by itself |
| `Watchdog.ThreadsComeToRest` | src/OpenRTI/AbsTimeout.cpp:25-143 | Without timeouts and spurious wake-ups the threads come to rest within 333 steps from any reachable state, in whatever order they run, and then nothing is in progress |
| `Watchdog.CallCanEnd` | src/OpenRTI/AbsTimeout.cpp:25-143 | From every reachable state the two threads alone have a way to end what is in progress |
| `Watchdog.StepsAreBounded` | src/OpenRTI/AbsTimeout.cpp:25-143 | The number of thread steps of a call is at most what its rank falls by, plus what the waits that end by themselves add |
| `Watchdog.AnswersAreFresh` | src/OpenRTI/AbsTimeout.cpp:92-143 | Each delay that `getDelay` returned was measured by a clock sample taken after that call reset `_delayProvided`; it counts a break that the watchdog was in when the call came, and no more time than has passed |
| `Watchdog.AnswersAreOverruns` | src/OpenRTI/AbsTimeout.cpp:92-143 | In clock values: each answer is the sum, over all waits of the watchdog that were completed when it was read, of the time beyond 100 ms between the two samples of the wait; what a wait that is in progress at the reset has overrun its period by is included |
| `Watchdog.DelayIsOverrun` | src/OpenRTI/AbsTimeout.cpp:121-143 | After every run the accumulated delay, with what is just being added, is that sum over all completed waits |
| `Watchdog.StoppedForTenSeconds` | src/OpenRTI/AbsTimeout.cpp:92-143 | A run in which the program is stopped for ten seconds while the watchdog sleeps answers 9.9 seconds |
| `Watchdog.StepKeepsInv` | src/OpenRTI/AbsTimeout.cpp:25-143 | Mutual exclusion, no thread asleep while what it waits for is true, freshness, and what is due to the caller survive every step of either thread, clock ticks, timeouts and spurious wake-ups |
| `Watchdog.DogKeepsBreakCounted` | src/OpenRTI/AbsTimeout.cpp:121-143 | Whatever the watchdog does, the delay that was due when the caller asked is not lost on the way to the caller |
| `Watchdog.RunKeepsInv` | src/OpenRTI/AbsTimeout.cpp:99-143 | They hold in every reachable state |
| `Watchdog.ExpiryMeans` | src/OpenRTI/AbsTimeout.cpp:38-90 | Each form of `isExpired` in terms of deadline, delay and clock, with the remaining time of the second |
| `Watchdog.CallerGetsCloser` | src/OpenRTI/AbsTimeout.cpp:25-119 | Every step of the caller brings the end of the call or of the destructor nearer |
| `Watchdog.DogGetsCloser` | src/OpenRTI/AbsTimeout.cpp:121-143 | So does every step of the watchdog |
| `Watchdog.ExpiryFormsAgree` | src/OpenRTI/AbsTimeout.cpp:38-90 | The two forms agree on expiry except at exactly the shifted deadline of a finite non-zero timeout |
| `Watchdog.ExpiryFormsDisagree` | src/OpenRTI/AbsTimeout.cpp:38-90 | At the shifted deadline 7 one form says expired and the other does not |
| `HandleAllocator.Allocator.Take` | src/OpenRTI/HandleAllocator.h:71-86 | The loop takes the handle and frees exactly those the watermark jumps over; the invalid handle is ignored |
| `HandleAllocator.Allocator.Get` | src/OpenRTI/HandleAllocator.h:88-99 | Hands out the least free handle, or the watermark when none came back, and fails only when nothing is left |
| `HandleAllocator.Allocator.GetOrTake` | src/OpenRTI/HandleAllocator.h:101-107 | Takes the wanted handle if it is valid and gets one otherwise |
| `HandleAllocator.Allocator.Put` | src/OpenRTI/HandleAllocator.h:109-114 | Puts a handle back, and keeps the allocator consistent if and only if the handle is below the watermark or invalid |
| `HandleAllocator.Allocator.Used` | src/OpenRTI/HandleAllocator.h:117-121 | True exactly when some handle is live |
| `HandleAllocator.LiveCount` | src/OpenRTI/HandleAllocator.h:117-121 | The number of live handles is the watermark less the free ones |
| `HandleAllocator.GetGivesLeast` | src/OpenRTI/HandleAllocator.h:88-99 | What `get` returns was not live, is the least such handle and then is live; it fails exactly when every valid handle is live |
| `HandleAllocator.TakeAddsLive` | src/OpenRTI/HandleAllocator.h:71-86 | `take` makes exactly its handle live, in whatever order handles arrive |
| `HandleAllocator.PutRemovesLive` | src/OpenRTI/HandleAllocator.h:109-114 | `put` makes exactly its handle not live |
| `HandleAllocator.UntakenPutBreaks` | src/OpenRTI/HandleAllocator.h:109-114 | Putting back a handle that a new allocator never gave out breaks it |
| `HandleAllocator.UntakenCandidateLeavesNoTrace` | src/OpenRTI/HandleAllocator.h:42-69 | A candidate that is dropped untaken gives back exactly the handle it allocated, whatever else was allocated and put back meanwhile; with nothing in between the live handles are as before |
| `HandleAllocator.ReplicaEqualsParent` | src/OpenRTI/HandleAllocator.h:71-114 | A replica that follows its parent's gets and puts has the parent's watermark and free set after every run |
| `HandleAllocator.TrackedLiveIsOutstanding` | src/OpenRTI/HandleAllocator.h:71-114 | Under takes in any order the live handles are exactly those taken and not put back |
| `HandleAllocator.WatermarkIsPeak` | src/OpenRTI/HandleAllocator.h:88-114 | In get and put runs from the start the watermark is the peak number of handles in use at once |
| `DataStream.CompressedRoundTrip` | src/OpenRTI/DecodeDataStream.h:469-480 | Decoding a code gives back the value and stops at the end of the code, whatever follows |
| `DataStream.CompressedPrefixFree` | src/OpenRTI/EncodeDataStream.h:481-489 | No code begins another, so codes end to end decode to one list only |
| `DataStream.CompressedLength` | src/OpenRTI/EncodeDataStream.h:481-489 | The code uses max(1, ceil(bits / 7)) bytes |
| `DataStream.CompressedAtMostTen` | src/OpenRTI/EncodeDataStream.h:409-427 | 8, 16, 32 and 64-bit values take at most 2, 3, 5 and 10 bytes |
| `DataStream.SignedRoundTrip` | src/OpenRTI/EncodeDataStream.h:409-427 | Signed values are sent as their residues and survive the casts to the unsigned type and back |
| `DataStream.FixedRoundTrip` | src/OpenRTI/VariableLengthData.h:437-760 | Fixed-width values survive either byte order at any width |
| `DataStream.BytesOnWire` | src/OpenRTI/EncodeDataStream.h:57-489 | The wire format byte by byte: either byte order of fixed-width integers, seven bits and a continuation bit per byte of the code, 0xff up to the next multiple |
| `DataStream.FixedByte` | src/OpenRTI/VariableLengthData.h:437-760 | Byte i of an integer of w bytes is its i-th digit to the base 256 in little endian and its digit w-1-i in big endian |
| `DataStream.FixedRead` | src/OpenRTI/VariableLengthData.h:437-760 | A reader takes any bytes as the sum of the bytes weighted by their places, and fails exactly beyond the end |
| `DataStream.PackedRead` | src/OpenRTI/DecodeDataStream.h:469-480 | A compressed integer ends at the first byte with a clear top bit, fails exactly if there is none, and is the weighted sum of the low seven bits |
| `DataStream.AlignRead` | src/OpenRTI/DecodeDataStream.h:42-54 | Aligning goes to the next multiple, and fails exactly if the data has none |
| `DataStream.WireSamples` | src/OpenRTI/EncodeDataStream.h:140-489 | 0x0102 is 01 02 in big endian and 02 01 in little endian; 300 is ac 02 in the code |
| `DataStream.PutChangesWindowOnly` | src/OpenRTI/EncodeDataStream.h:458-476 | Writing after a backward seek changes its own window only and never shrinks the data |
| `DataStream.RoundUpIsLeast` | src/OpenRTI/EncodeDataStream.h:57-69 | Alignment moves to the least multiple that is not before the offset |
| `DataStream.ScheduleRoundTrip` | src/OpenRTI/DecodeDataStream.h:449-480 | Any schedule of fixed, compressed, raw and aligned items reads back as it was written, ending at the same offset |
| `DataStream.WrittenScheduleReadsBack` | src/OpenRTI/EncodeDataStream.h:458-489 | The same when the schedule was written over older data, which is kept outside the window |
| `DataStream.EncodeDataStream.Seek` | src/OpenRTI/EncodeDataStream.h:50-55 | Seeking grows the data where needed and loses nothing |
| `DataStream.EncodeDataStream.Align` | src/OpenRTI/EncodeDataStream.h:57-69 | The padding loop moves to the aligned offset and overwrites only the padding |
| `DataStream.EncodeDataStream.WriteBytes` | src/OpenRTI/EncodeDataStream.h:458-476 | Writes over what is there and extends the data by the rest |
| `DataStream.EncodeDataStream.WriteCompressed` | src/OpenRTI/EncodeDataStream.h:481-489 | The shifting loop writes the 7-bit code of the value |
| `DataStream.EncodeDataStream.WriteSchedule` | src/OpenRTI/EncodeDataStream.h:50-489 | A sequence of writes leaves exactly the bytes of its schedule |
| `DataStream.DecodeDataStream.Align` | src/OpenRTI/DecodeDataStream.h:42-54 | Moves to the aligned offset or fails beyond the end without moving |
| `DataStream.DecodeDataStream.ReadBytes` | src/OpenRTI/DecodeDataStream.h:449-466 | Returns the next bytes, or fails after the offset has moved |
| `DataStream.DecodeDataStream.ReadCompressed` | src/OpenRTI/DecodeDataStream.h:469-480 | The shift-and-or loop decodes the code cut to the type's width, and says where it stops, also at the end of the data |
| `ByteBuffer.ByteIterator.Increment` | src/OpenRTI/Buffer.h:128-146 | Moves the flat position by exactly the count and comes to rest in normal form |
| `ByteBuffer.ByteIterator.Decrement` | src/OpenRTI/Buffer.h:146-159 | Moves it back by exactly the count, over empty chunks as well |
| `ByteBuffer.ByteIterator.MoveTwice` | src/OpenRTI/Buffer.h:96-105 | Moves add up, and moving back ends on the same chunk and offset |
| `ByteBuffer.ByteIterator.SkipEmptyChunks` | src/OpenRTI/Buffer.h:58-64 | Skips only chunks without bytes, so the flat position stays |
| `ByteBuffer.NormalIsUnique` | src/OpenRTI/Buffer.h:66-76 | Two iterators in normal form are the same if and only if their flat positions are |
| `ByteBuffer.EqualityIsFlatEquality` | src/OpenRTI/Buffer.h:66-76 | Where iterators come to rest, equal flat positions mean equal iterators, except between chunk boundaries with only empty chunks in between |
| `ByteBuffer.EmptyChunkBetween` | src/OpenRTI/Buffer.h:66-76 | The two sides of an empty chunk are the same flat position and not equal |
| `ByteBuffer.ChunkInFlat` | src/OpenRTI/Buffer.h:49-56 | Every chunk lies in the flat string between its start and the next chunk's |
| `ByteBuffer.Scan` | src/OpenRTI/posix/SocketStreamPosix.cpp:60-80 | Repeatedly taking `chunk_size` bytes visits every byte of the range once and in order, and ends, whatever empty chunks there are |
| `ByteBuffer.ByteSize` | src/OpenRTI/Buffer.h:204-212 | The result is the flat distance plus the begin offset minus the end offset |
| `ByteBuffer.ByteSizeIsDistance` | src/OpenRTI/Buffer.h:204-212 | So it is the distance if and only if the offsets are equal |
| `ByteBuffer.ByteSizeMisses` | src/OpenRTI/Buffer.h:204-212 | It says 0 for two positions of one chunk that are one byte apart |
| `ModuleBuilder.ClassList.CompleteNames` | src/OpenRTI/FOMStringModuleBuilder.h:231-256 | One pass over the list turns every simple name into the path from the outermost class |
| `ModuleBuilder.ClassList.CheckNames` | src/OpenRTI/FOMStringModuleBuilder.h:274-321 | Accepts exactly lists whose names are non-empty and pairwise distinct; otherwise the error is that of the first faulty name |
| `ModuleBuilder.ClassList.InsertRoot` | src/OpenRTI/FOMStringModuleBuilder.h:323-364 | Puts a root class on top and in front of every name exactly when the list does not start with it |
| `ModuleBuilder.ClassList.Validate` | src/OpenRTI/FOMStringModuleBuilder.h:231-364 | Accepts if and only if the paths are non-empty and distinct, and then leaves the paths under the root as names and every class's members as they were |
| `ModuleBuilder.ClassList.FixRootAttributes` | src/OpenRTI/FOMStringModuleBuilder.h:365-369 | The root class ends with exactly the one standard attribute, all other classes are left alone |
| `ModuleBuilder.FixDropsOthers` | src/OpenRTI/FOMStringModuleBuilder.h:365-369 | The root's attributes stay, but for the first one's name, if and only if there is one; two become one |
| `ModuleBuilder.ClassList.SearchInheritedMembers` | src/OpenRTI/FOMStringModuleBuilder.h:338-350 | The search for repeated members along a path is never entered, so it never rejects |
| `ModuleBuilder.ClassList.ValidateInteractions` | src/OpenRTI/FOMStringModuleBuilder.h:234-350 | Interaction classes are accepted if and only if their paths are non-empty and distinct, whatever their parameters, which stay as they were pushed |
| `ModuleBuilder.ClassList.ValidateObjects` | src/OpenRTI/FOMStringModuleBuilder.h:246-383 | The same for object classes; after an accepted validation object class 0 has exactly the one standard attribute, and all others have those that were pushed |
| `ModuleBuilder.RootKeepsUniqueness` | src/OpenRTI/FOMStringModuleBuilder.h:323-350 | For all lists, member names are unique along every path of the validated list if and only if they were in the pushed one |
| `ModuleBuilder.FixedRootUniqueness` | src/OpenRTI/FOMStringModuleBuilder.h:365-383 | With the root's one attribute in place they are unique if and only if the others are and none below the root repeats it |
| `ModuleBuilder.RepeatedMembersAccepted` | src/OpenRTI/FOMStringModuleBuilder.h:371-383 | A class that repeats its parent's member and a class that has a member twice are accepted |
| `ModuleBuilder.PathPrefix` | src/OpenRTI/FOMStringModuleBuilder.h:231-256 | Every prefix of a class's path is the path of one of its enclosing classes |
| `ModuleBuilder.PathsPrefixClosed` | src/OpenRTI/FOMStringModuleBuilder.h:231-256 | Full names are prefix-closed |
| `ModuleBuilder.RootKeepsNames` | src/OpenRTI/FOMStringModuleBuilder.h:323-364 | The artificial root keeps the names distinct and prefix-closed, and the first class is the root in any case |
| `ModuleBuilder.AcceptedNames` | src/OpenRTI/FOMStringModuleBuilder.h:231-369 | When validation accepts classes pushed with one name each, every name is the class's path under the root, and the names are distinct and prefix-closed |
| `FedReader.Handler.StartElement` | src/OpenRTI/FEDFileReader.cpp:47-160 | Performs exactly the step for which `FedReader.ModeForByTokens` says whether it is accepted and what it opens, never raising a "No current class" error |
| `FedReader.Handler.EndElement` | src/OpenRTI/FEDFileReader.cpp:161-173 | Closes the innermost element and its class with it |
| `FedReader.ModeForByTokens` | src/OpenRTI/FEDFileReader.cpp:47-160 | By the tokens of the enclosing elements: whether an element is accepted, and that a `class` is an object class exactly if all around it are classes up to an `objects` right under `FED`; likewise for interaction classes, attributes and parameters |
| `FedReader.AcceptedExactly` | src/OpenRTI/FEDFileReader.cpp:47-173 | A sequence of events is accepted if and only if every event fits the tokens of the elements that are open before it |
| `FedReader.CaseEqualExactly` | src/OpenRTI/FEDFileReader.cpp:47-160 | Words compare equal up to the case of ASCII letters |
| `FedReader.BuilderFollowsReader` | src/OpenRTI/FEDFileReader.cpp:47-173 | For every event sequence accepted so far the builder's stacks are the open class elements, and each class's recorded parent is its nearest enclosing class |
| `FedReader.DocumentEndsClean` | src/OpenRTI/FEDFileReader.cpp:161-173 | After a balanced document both stacks are empty and every class has one simple name and a parent listed before it, as name completion asserts |
| `FedDocument.EventOnList` | src/OpenRTI/FEDFileReader.cpp:109-158 | A class element adds one class with its standard name, a member element adds its name to the innermost open class of its sort, and no other element touches the list |
| `FedDocument.ListIsWritten` | src/OpenRTI/FEDFileReader.cpp:47-173 | For every event sequence accepted so far the class list has exactly the document's classes in order, each with its one name and with the members that stand directly inside it, in order |
| `FedDocument.ReadyToValidate` | src/OpenRTI/FOMStringModuleBuilder.h:231-255 | What reading hands to validation is what name completion asserts, with the names and parents that the document gives |
| `FedDocument.NamesOfDocument` | src/OpenRTI/FOMStringModuleBuilder.h:231-369 | End to end, if the document and then validation are accepted, each class is named by its path through its enclosing elements under the root class, all names differ, and they are prefix-closed |
| `FedDocument.ObjectsRead` | src/OpenRTI/FEDFileReader.cpp:97-139 | `FED`, `objects`, `class ObjectRoot`, `Attribute PrivilegeToDelete` are accepted and give class HLAobjectRoot with its attribute HLAprivilegeToDeleteObject |
| `FedDocument.InteractionsRead` | src/OpenRTI/FEDFileReader.cpp:103-158 | The same for an interaction class with a parameter |
| `FedReader.ModeNeedsTokens` | src/OpenRTI/FEDFileReader.cpp:47-160 | Elements that name something have a name to give, and attributes and parameters stand inside their class |
| `FddReader.LeafOnItsClass` | src/OpenRTI/FDD1516EFileReader.cpp:417-455 | A callback that asks the builder for its current class always finds one, at every reachable context stack |
| `FddReader.EnteredInStep` | src/OpenRTI/FDD1516EFileReader.cpp:379-415 | Entering an element keeps the builder's stacks as deep as the class nodes on the context stack |
| `FddReader.LeftInStep` | src/OpenRTI/FDD1516EFileReader.cpp:417-455 | So does leaving one |
| `FddReader.Handler.StartElement` | src/OpenRTI/FDD1516EFileReader.cpp:379-415 | Enters the place that `FddReader.ChildExactly` says an element has, rejects one without, and stays on an ignored node |
| `FddReader.Handler.EndElement` | src/OpenRTI/FDD1516EFileReader.cpp:417-455 | Leaves the current node on its own end only, and rejects other ends outside ignored nodes |
| `FddReader.ChildInPlace` | src/OpenRTI/FDD1516EFileReader.cpp:67-79 | The child found has the name asked for and keeps class names below their class |
| `FddReader.ChildExactly` | src/OpenRTI/FDD1516EFileReader.cpp:67-79 | The place of an element is the first child of its name, or the node itself if and only if there is no such child and the node recurs under its own name |
| `FddReader.IgnoredSkips` | src/OpenRTI/FDD1516EFileReader.cpp:394-430 | Below an ignored node, elements without that node's name are skipped without a trace |
| `FddReader.IgnoredPops` | src/OpenRTI/FDD1516EFileReader.cpp:423-430 | With an element of that name in it, the ignored node is left too early and the context stack ends shorter |
| `FddReader.IgnoredExactly` | src/OpenRTI/FDD1516EFileReader.cpp:394-430 | So the content is skipped without a trace if and only if none in it has that name |
| `FddReader.IgnoredApart` | src/OpenRTI/FDD1516EFileReader.cpp:230-357 | Where an ignored node's name is none of those around it, as in the reader's schema, an accepted ignored element never repeats it |
| `FddReader.NeverDeeper` | src/OpenRTI/FDD1516EFileReader.cpp:379-455 | Accepted whole elements leave at most the contexts that were there, for any schema and any state |
| `FddReader.ElementsRead` | src/OpenRTI/FDD1516EFileReader.cpp:379-455 | For every schema tree, accepted whole elements leave the contexts as they were if and only if no ignored one contains its own name, and then record each class under its nearest enclosing one with the names it holds |
| `FddReader.DocumentRead` | src/OpenRTI/FDD1516EFileReader.cpp:379-455 | Every accepted document, whatever the schema and whatever it ignores, leaves all stacks empty and gives the classes, parents and names that it has; a document that repeats an ignored node's name inside that node is never accepted |
| `FddReader.DocumentAccepted` | src/OpenRTI/FDD1516EFileReader.cpp:379-455 | A document is read to its end if and only if it has the root's name, each element outside ignored ones has a place, no ignored one contains its own name, and each interaction class has one name that is not empty |
| `FddReader.ElementsAccepted` | src/OpenRTI/FDD1516EFileReader.cpp:379-455 | The same for elements inside any open element |
| `FddReader.NestedInteractionsAccepted` | src/OpenRTI/FDD1516EFileReader.cpp:67-79 | An interaction class inside another is accepted |
| `FddReader.NestedIgnoredRejected` | src/OpenRTI/FDD1516EFileReader.cpp:417-430 | A document with an ignored element in itself is rejected although every element has its place |
| `FddReader.NoUnderflow` | src/OpenRTI/FDD1516EFileReader.cpp:417-420 | An end event finds the context stack empty only in a document that repeats the root's name and has an ignored element that contains its own name |
| `FddReader.RepeatedRootUnderflows` | src/OpenRTI/FDD1516EFileReader.cpp:417-430 | In a document of four elements that does both it happens, although the ignored node and the root differ in name |
| `FddReader.CleanNeverUnderflows` | src/OpenRTI/FDD1516EFileReader.cpp:417-455 | Elements of which no ignored one contains its own name never take a context that is not theirs, accepted or not |
| `FddReader.DocumentCompletable` | src/OpenRTI/FOMStringModuleBuilder.h:241-254 | After an accepted document every nested interaction class has the one name that name completion asserts; every nested object class does if and only if the document gives each exactly one |
| `FddReader.NamesOfDocument` | src/OpenRTI/FOMStringModuleBuilder.h:231-369 | End to end, the classes of an accepted document come with parents listed before them and interaction classes with one name each; where each class has one name and validation accepts, each is named by its path through its enclosing classes in the document under the root class, all names differ, and they are prefix-closed |
| `FddReader.NamelessClassAccepted` | src/OpenRTI/FOMStringModuleBuilder.h:85-88 | A nested object class without a name is accepted |
| `ServerQueue.PostedLast` | src/OpenRTI/AbstractServer.cpp:62-78 | Posting a message or an operation appends it to the one sequence that the two lists stand for |
| `ServerQueue.Queue.PushBackMessage` | src/OpenRTI/AbstractServer.cpp:62-71 | Appends the message, with a pool node if there is one |
| `ServerQueue.Queue.PushBackOperation` | src/OpenRTI/AbstractServer.cpp:73-78 | Appends the operation behind its marker |
| `ServerQueue.Queue.Swap` | src/OpenRTI/AbstractServer.cpp:35-40 | Exchanges the contents of two queues |
| `ServerQueue.Queue.Send` | src/OpenRTI/AbstractServer.cpp:48-60 | Executes exactly the posted sequence in order and keeps all nodes, emptied |
| `ServerQueue.Queue.Recycle` | src/OpenRTI/AbstractServer.cpp:80-84 | Gives all nodes to the pool |
| `ServerQueue.MoveKeepsOrder` | src/OpenRTI/AbstractServer.cpp:35-84 | However posts fall between the steps of the server loop, executed, batch and inbox together are what was posted, in order, no marker lacks its operation, and nodes are conserved |
| `ServerQueue.ExecutedIsPosted` | src/OpenRTI/AbstractServer.cpp:35-84 | After every interleaving the executed items are a prefix of the posted ones, and all of them once the server is idle, with all nodes back in the pool |
| `ServerQueue.AllCanBeExecuted` | src/OpenRTI/AbstractServer.cpp:35-84 | After every interleaving the server loop by itself can execute all that was posted and come to rest |

## Left out

- The federate is modelled from the moment it has joined, so NotConnected and FederateNotExecutionMember do not arise.
- Waiting for free handles or for the reply to a name request: a grant that arrives in time is a grant made before the call, otherwise the call ends in its timeout error.
- Time management, message retraction, save and restore, ownership transfer, regions and advisory callbacks: they delegate to code that is not part of this model.
- Publication and subscription of interaction classes, which have one flag and no attributes, and interaction parameter filters.
- updateAttributeValues and sendInteraction: grouping of values by transportation and order type, and their user tags.
- Reservation requests and their IllegalName checks; the model starts with the server's replies.
- Names, order types, transportation types, data types and dimensions of classes and attributes, and update rate designators.
- unsubscribeObjectInstance and the per-instance subscription flag.
- Attribute vectors with absent slots: the declaration services assume the handles of a class to be contiguous, as the server assigns them; ClassTree works with arbitrary sets of attributes.
- An arriving class whose parent is not there, which the code does not expect: such an arrival is ignored.
- `Ambassador.ObjectClass.CompactPublications`: works on a sequence variable that each assignment replaces, so aliasing of the caller's vector is not captured.
- `Ambassador.ObjectClass.CompactSubscriptions`: the same.
- `Ambassador.Ambassador.PublishObjectClassAttributes`: without the registration advisory that is queued for a class that is freshly published.
- `Ambassador.Ambassador.SubscribeObjectClassAttributes`: without the errors for update rate designators.
- `Ambassador.Ambassador.ReleaseObjectInstance`: without erasing queued time-stamped messages of the instance, which is time management.
- `Ambassador.Ambassador.InsertObjectInstance`: without the subscription flag per instance.
- `Ambassador.Ambassador.RegisterObjectInstance`: a grant that arrives while the code waits counts as one made before the call.
- `Ambassador.Ambassador.RegisterNamedObjectInstance`: the server's answer to the reservation is an argument, and the request message is not recorded.
- `Ambassador.Ambassador.InsertObjectInstanceArrived`: without the discover callback to the user.
- `Ambassador.Ambassador.RemoveObjectInstanceArrived`: without the remove callback to the user.
- `Ambassador.Ambassador.InsertObjectClass`: inserts a class that is not there yet with its own attributes at once; an attribute that arrives later is a step of the runs, and TreeOfClasses proves that its way down the tree is the one of ClassTree.
- `ClassTree.FederateClasses.InsertObjectClass`: without names; the copied levels are in Ambassador.Ambassador.InsertObjectClass.
- `ByteBuffer.Scan`: without the early stop of a sender whose vector of pieces or socket buffer is full.
- `ModuleBuilder.ClassList.CheckNames`: without the checks of dimension names in the same loops.
- `ModuleBuilder.ClassList.Validate`: without the checks of transportation types and dimensions.
- `ModuleBuilder.ClassList.ValidateInteractions`: the same.
- `ModuleBuilder.ClassList.ValidateObjects`: the same.
- `FedReader.Handler.StartElement`: does not record transportation and order tokens.
- `FddReader.Handler.StartElement`: has no callbacks for attributes, parameters, dimensions and data types.
- `FddReader.Handler.EndElement`: hands texts to class names only.
- `FddReader.DocumentRead`: an end event on an empty context stack counts as a rejection, where the code takes the front of an empty list and the result is undefined in C++; FddReader.NoUnderflow says when it cannot come to that.
- Failures to start the watchdog thread, and overflow of the accumulated delay after centuries.
- `DataStream.DecodeDataStream.ReadCompressed`: cuts an over-long code to the type's width, where the code shifts by more than the width and the result is undefined in C++.
- Floating point values beyond their bit patterns, and overflow of size_t.
- `ByteBuffer.ByteIterator.Increment`: assumes no empty chunk in the stretch it crosses, as the assertion in the code demands.
- The concrete schema of FDD files and the leaves for attributes, parameters, dimensions and data types; the reader is modelled for any schema tree with class nodes, name leaves and ignored nodes.
- Checks of transportation types, dimensions and update rates in validate.
- XML parsing and the splitting of FED files into tokens: the readers start at element events.
- Null messages in posts to the server queue, which would read as operation markers, and what executing an item does.
- Network streams, protocol layers, the Python binding and logging.

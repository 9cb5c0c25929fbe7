# Ragingos kernel: a verified model

The project models the algorithmic parts of the Ragingos kernel and of two of its user programs, and proves what they are
for, over whole runs where a run is what matters:

- **Memory.** The first-fit frame allocator, the four-level page maps built, copied and torn down in place, and applications
  over their whole lives: launches from a cached image, page faults, copy-on-write, demand paging, mapped files and exits, for
  any number of tasks in any order (`FrameAllocator`, `PageTree`, `PageSetup`, `PageCopy`, `Paging`, `Ownership`, `AppMemory`,
  `PageNumbers`, `AppSteps`, `AppLoader`, `ProgramImages`, `Applications`, `AppRuns`, `ProgramMemory`, `MappedPages`, `LatePages`,
  `FileRuns`).
- **Files.** FAT32 cluster chains, file descriptors, directories, 8.3 names, path search and file creation (`FatChains`,
  `FatPlacement`, `FatWrites`, `FatFiles`, `FatRuns`, `FatCursors`, `FatNames`, `FatDirectories`, `FatPaths`, `FatSearch`,
  `FatCreation`, `FatLookup`).
- **Decoding.** The Huffman tables and decoder of the vendored inflate code against canonical Huffman codes as in section 3.2.2
  of RFC 1951 (`BitOps`, `HuffmanCodes`, `HuffmanTables`, `HuffmanDecoder`).
- **Scheduling.** Run queues by level, sleeping and waking, messages, exit codes and the timer interrupt (`Scheduler`,
  `TaskSpec`, `Tasks`, `TaskOrder`, `Timers`, `TimeSharing`).
- **USB.** Rings of transfer request blocks with a concurrent consumer, and the bring-up of root hub ports (`CycleRings`,
  `XhciRings`, `Rings`, `XhciPorts`, `PortProgress`, `PortSetup`).
- **Screen.** Incremental redrawing of stacked windows against full composition (`Geometry`, `Compositing`, `FrameBuffers`,
  `Windows`, `LayerStacks`, `Layers`, `ActiveLayers`, `ShownThrough`).
- **Streams.** The pipe between terminals, and saving and loading UTF-8 text as in section 3 of RFC 3629 (`Pipes`,
  `PipeDescriptors`, `Utf8`, `TextFiles`).

Procedures that change state are methods of classes with the fields they change; each is proved against a function or predicate
of the state before, and the properties are then proved of those. `dafny verify dfyconfig.toml` checks everything.

## Model

| member | source | states |
|---|---|---|
| AppRuns.Run | src/kernel/paging.cpp:246-265 | Refinement over whole runs: for every sequence of launches, stores, loads, DemandPages and MapFile calls and exits by any tasks, what the tasks can observe through page maps, faults and shared frames, and every word and address that they are given back, is exactly what a machine with one private memory per application computes. |
| AppRuns.Perform | src/kernel/syscall.cpp:376-406 | One operation of a run and what it returns; it fails only if that machine refuses it or every frame of the range is taken, and an operation other than a failed launch changes no frame of another owner. |
| AppRuns.RunIsolation | src/kernel/paging.cpp:178-187 | Copy-on-write isolation: a task that does nothing itself finds every page of its memory as it left it, whatever all other tasks do and in whatever order. |
| AppRuns.RunKeepsImages | src/kernel/terminal.cpp:224-228 | No run changes a cached image, nor where it ends. |
| AppRuns.LaunchSeesFirstLoad | src/kernel/terminal.cpp:215-256 | Any later launch of a file, after any run in between and whatever the file holds by then, starts from the memory that the first load built, with an empty demand-paged range that begins right behind the image's last page. |
| ProgramImages.EndRightBehind | src/kernel/terminal.cpp:95-118 | The end that loading computes lies behind every page of the image, and no page before it does, unless a segment has no pages. |
| ProgramImages.ImagePages | src/kernel/terminal.cpp:95-118 | The pages of an image are exactly those that its segments cover. |
| ProgramImages.ImageWord | src/kernel/terminal.cpp:95-118 | A word of an image is what the last segment that stores it has there; `ImageZero`: all others are zero. |
| ProgramMemory.SoundRun | src/kernel/terminal.cpp:215-256 | In every world that a run leads to images end behind their pages, and mappings do not overlap. |
| ProgramMemory.LaunchedPages | src/kernel/terminal.cpp:763-806 | A launched program finds its image, one page of arguments at the end of the address space and sixteen zeroed pages below it, and nothing else. |
| ProgramMemory.ExecStarts | src/kernel/terminal.cpp:763-806 | A launch that went well leaves a program running without demanded pages or mappings, and one that did not leaves every task as it was. |
| ProgramMemory.QuitEnds | src/kernel/terminal.cpp:811-818 | A program that has ended has no memory and no areas, and all others have what they had. |
| ProgramMemory.StoreThenFetch | src/kernel/paging.cpp:246-265 | What a program stored it loads again, whatever all tasks do in between, as long as it runs and does not store there again. |
| ProgramMemory.DemandThenFetch | src/kernel/syscall.cpp:376-386 | Each of the demanded pages from the returned one on reads as zeroes until the program stores there, over any run. |
| ProgramMemory.DemandsApart | src/kernel/syscall.cpp:376-386 | A later demand gets pages behind all of the earlier ones'. |
| ProgramMemory.MapThenFetch | src/kernel/syscall.cpp:388-406 | Byte x of a mapped file, for every x below its size, is loaded from the returned address plus x, after any run in which the program has not touched that page. |
| AppRuns.Lifetime | src/kernel/terminal.cpp:763-818 | Frame conservation: after launch, any work and exit of a task the allocator's taken frames are what they were, if the image was cached, and otherwise they are those and exactly the image's frames, none of which was taken before. |
| Applications.AppSystem.ExecuteFile | src/kernel/terminal.cpp:763-806 | The launched memory is the image's, one page of arguments and a zeroed stack, and the demand-paged range starts at the cached end, which a first load leaves right behind the image; a failure leaves all other memories as they were and means that no frame is free. |
| Applications.AppSystem.HandlePageFault | src/kernel/paging.cpp:246-265 | Which page each fault brings in: a private copy, zeroes, the file's part as the file is at the fault, or nothing; no other memory changes. |
| Applications.AppSystem.Store | src/kernel/paging.cpp:246-265 | A user store changes exactly one word of exactly one application's memory, bringing the page in or copying it if needed; it fails only on a page of no area or when no frame is free. |
| Applications.AppSystem.MapFile | src/kernel/syscall.cpp:388-406 | A mapping takes the pages just below all earlier ones, as many as the file needs, and EBADF is returned exactly for a descriptor that is not open; nothing is loaded yet. |
| Applications.AppSystem.Exit | src/kernel/terminal.cpp:811-818 | The frames freed are exactly those that were the application's alone; every other memory stays. |
| Applications.MappingReached | src/kernel/syscall.cpp:400-404 | Every page of a new mapping starts inside its file. |
| MappedPages.LoadPage | src/kernel/paging.cpp:150-162 | Byte a of a loaded page is byte offset + a of the file, or zero after its end, if and only if the page starts inside the file or the chain holds zeroes there; no cursor of the descriptor moves. |
| MappedPages.LoadedShows | src/kernel/fat.cpp:302-325 | The same condition for pages: a page that starts behind the file's end shows the chain's old bytes, so it is right exactly if they are zero. |
| MappedPages.BitsOfWord | src/kernel/paging.hpp:80-106 | The lowest three bits of an entry are present, writable and user, and the frame's number has the forty from the twelfth on. |
| MappedPages.BytesOfWord | src/kernel/paging.cpp:150-162 | The eight bytes of a word, the lowest first, make its value. |
| LatePages.MapWriteFetch | src/kernel/paging.cpp:150-162 | A file is mapped, then rewritten through another descriptor while other files are open, and only then touched: the word read is that of the file as rewritten, exactly if the page starts inside it or its chain is zero there. |
| FileRuns.Session | src/kernel/paging.cpp:150-162 | The same refinement for runs in which files are rewritten at any points, also while they are mapped: all that the tasks observe and are told is what the machine of private memories makes of the files as they are at each fault. |
| FileRuns.SessionIsolation | src/kernel/paging.cpp:178-187 | Neither other tasks' work nor writes to any file change the memory of a task that does nothing itself, mapped pages that it has touched included. |
| FileRuns.FirstLoad | src/kernel/paging.cpp:150-162 | In such a run a word loaded from a mapped page that is touched for the first time is the file's as it was written last, exactly if the page starts inside it or its chain is zero there. |
| Paging.PagedMemory.SetupPageMap | src/kernel/paging.cpp:59-111 | Maps exactly the next pages of the range that fit the table and returns how many remain; each keeps its frame or gets a fresh zeroed one, every other address walks as before, the frames taken are exactly the new ones, the maps stay trees, and it fails only when no frame is free. |
| Paging.PagedMemory.CleanPageMap | src/kernel/paging.cpp:113-138 | Empties the table and frees exactly the frames that its writable entries reach; no read-only shared frame is freed. |
| Paging.PagedMemory.CopyPageMaps | src/kernel/paging.cpp:217-244 | The copy has tables of its own and every address walks in it to the source's page, read-only; nothing but the new tables changes. |
| Paging.PagedMemory.SetPageContent | src/kernel/paging.cpp:164-176 | Only the entry of the address changes: it walks to the given frame, writable, and every other address as before. |
| Paging.PagedMemory.CopyOnePage | src/kernel/paging.cpp:178-187 | The page gets one new frame with its old contents, writable, and nothing else changes; without a free frame nothing does. |
| PageTree.FourLevels | src/kernel/paging.hpp:35-106 | The walk is the processor's: four tables, picked by the four indices from the highest on, each entry leading to the next table if it is present. |
| PageTree.WalkLeaf | src/kernel/paging.hpp:80-106 | The frame an address walks to is a leaf of the map's tree, and it is writable exactly if it is among the frames that a teardown frees. |
| FrameAllocator.BitmapMemoryManager.Allocate | src/kernel/memory_manager.cpp:14-51 | The result is the least start of a run of free frames in range, and exactly those frames become taken; it fails exactly if there is none, and then nothing changes. |
| FrameAllocator.BitmapMemoryManager.Free | src/kernel/memory_manager.cpp:40-45 | Exactly the given frames become free. |
| FrameAllocator.InitializeMemoryManager | src/kernel/memory_manager.cpp:87-140 | On a sorted map of disjoint descriptors, before the heap is taken a frame below the range's end is free if and only if an available descriptor covers it, and the heap is made of such frames. |
| FrameAllocator.ScanStep | src/kernel/memory_manager.cpp:110-132 | One descriptor of the scan: below the end reached so far, exactly the available frames are unmarked. |
| FatChains.Volume.ExtendCluster | src/kernel/fat.cpp:190-209 | Terminates, appends exactly the n lowest-numbered free clusters to the chain in ascending order, and returns the new last one. |
| FatChains.Volume.AllocateClusterChain | src/kernel/fat.cpp:282-296 | The new chain is the n lowest-numbered free clusters, at least one. |
| FatChains.FreeExact | src/kernel/fat.cpp:190-209 | The clusters that a search from i meets are all those with a zero entry, in ascending order. |
| FatChains.ExtendedFree | src/kernel/fat.cpp:190-209 | After a chain has grown, the free clusters are what was left of them: none is lost and none handed out twice. |
| FatChains.AllocatedFree | src/kernel/fat.cpp:282-296 | The same after a new chain. |
| FatChains.ExtendedChains | src/kernel/fat.cpp:190-209 | All chains of a volume stay end-marked, acyclic and disjoint when one of them grows. |
| FatChains.AllocatedChains | src/kernel/fat.cpp:282-296 | The same when a new chain joins them. |
| FatChains.ChainUnique | src/kernel/fat.cpp:106-112 | A first cluster determines its chain. |
| FatFiles.FileDescriptor.Read | src/kernel/fat.cpp:302-325 | Returns the file's bytes from the cursor on, up to its end, and advances by as many; a cursor behind the end gets the chain's bytes, as the subtraction wraps around. |
| FatFiles.ReadLengthExact | src/kernel/fat.cpp:306 | A read stops at the file's end if and only if it starts no later than there, or asks for nothing. |
| FatFiles.FileDescriptor.Load | src/kernel/fat.cpp:369-382 | The file's bytes at an offset, with this descriptor's own cursors left alone. |
| FatFiles.FileDescriptor.Write | src/kernel/fat.cpp:327-367 | What one write does to chain, data and cursor, for every length: which clusters are taken and where each byte lands; the size becomes the end of this descriptor's writes. |
| FatRuns.WriteExactly | src/kernel/fat.cpp:345-362 | A write in order reads back as written if it needs at most one new cluster; if it needs more, the bytes from the chain's old end on are what the first free cluster held before. |
| FatRuns.WriteAll | src/kernel/fat.cpp:327-367 | After any series of writes of which none grows an existing chain by more than one cluster, the file is the concatenation of what was written and every other file of the volume has its clusters and bytes. |
| FatRuns.ReadAll | src/kernel/fat.cpp:302-325 | Reads of any lengths return the file piece by piece, up to its end. |
| FatRuns.SaveAndLoad | src/kernel/fat.cpp:302-367 | Round trip: what is written in any such series is read back under every chunking of the reads. |
| FatCursors.WriteWhileReading | src/kernel/fat.cpp:302-367 | After a write to a file that is being read, its reader can go on if and only if its cursor is not behind the new end, and is not the end mark of a chain that has grown. |
| FatCursors.ReadSurvives | src/kernel/fat.cpp:318-321 | A read cursor is one of the grown chain exactly if it had not run off the old one. |
| FatNames.NameIsEqual | src/kernel/fat.cpp:151-172 | An entry is accepted for a name if and only if the name is a base without dot of at most eight characters and an extension of at most three, and the entry is that name in upper case, padded. |
| FatNames.ShownAsGiven | src/kernel/fat.cpp:56-76 | The name set and shown again is the given one in upper case if and only if its parts fit, end in no space and a dot is followed by something. |
| FatNames.ToUpperIs | src/kernel/fat.cpp:232-247 | Each small letter becomes the capital one of its place in the alphabet, and every other character stays. |
| FatNames.NoSmallLetter | src/kernel/fat.cpp:232-247 | No small letter gets into an entry. |
| FatNames.SameEntryLetters | src/kernel/fat.cpp:232-247 | Two well-formed names that are shown as given make the same entry exactly if they agree, character by character, but for the case of letters. |
| FatNames.CaseIsFree | src/kernel/fat.cpp:151-172 | Names that agree but for case are accepted for the same entries. |
| FatLookup.Directories.FindFile | src/kernel/fat.cpp:114-149 | The search through clusters and path elements finds the entry that the path resolves to in the directory tree, and says whether a slash follows. |
| FatSearch.ScanIsFirst | src/kernel/fat.cpp:127-148 | In a directory the search stops at the first entry with the name before which there is no end mark; `ScanFinds`: it finds nothing else. |
| FatSearch.SearchName | src/kernel/fat.cpp:114-149 | A path of one element is looked up in the directory where the search starts, and no slash follows. |
| FatSearch.SearchElement | src/kernel/fat.cpp:114-149 | With more after a slash a missing element ends the search, a file is the result whatever follows it, and a directory is searched for the rest. |
| FatSearch.SearchAbsolute | src/kernel/fat.cpp:114-122 | A slash in front of a path starts the search at the root. |
| FatLookup.Directories.CreateFile | src/kernel/fat.cpp:211-280 | IsDirectory exactly for a path that ends in a slash, NoSuchEntry exactly if its parent is not found, and both leave the volume as it was; in a parent directory the path, if it was new, then resolves to the new entry exactly if its name reads back and is looked up there, and every other path from every directory resolves as before; an ordinary file as parent has an entry written over its bytes, and no search changes. |
| FatCreation.ResolveParent | src/kernel/fat.cpp:114-149 | For any path, empty elements included, the search for it ends with one for its last element in the directory that creation puts it in, unless an odd number of empty elements stands before its name: then it ends in the root. |
| FatLookup.FoundAgain | src/kernel/fat.cpp:249-279 | A new well-formed path leads to the file created for it if and only if the parent is a directory, and either no odd number of empty elements stands before the name or that directory is the root. |
| FatPaths.BackIs | src/kernel/fat.cpp:12-31 | The element-by-element search goes back to the root for the last element exactly if the parent's path, but for a leading slash, ends in an odd number of slashes. |
| FatLookup.NewFileIs | src/kernel/fat.cpp:273-279 | A created file has size 0, and no clusters exactly if the directory had to grow or the vacant entry had none. |
| FatCreation.CreatedFound | src/kernel/fat.cpp:114-149 | Create, then find: in a directory without deleted entries, also across a cluster boundary, a new path resolves to the new entry exactly if its name reads back as itself and is looked up in that directory. |
| FatCreation.OthersFound | src/kernel/fat.cpp:114-149 | After a creation any search for any path from any directory gives what it gave before, or, if that was nothing, possibly the new entry. |
| HuffmanTables.HuffmanTable.Build | src/apps/lib/stb_image.h:3952-4014 | Accepts a list of code lengths if and only if its Kraft sum is at most 1, and then the tables are those of its canonical code. |
| HuffmanDecoder.BitReader.Decode | src/apps/lib/stb_image.h:4042-4091 | Fast table and slow path together return the one symbol whose canonical code the bit stream starts with, and leave the stream after it; -1, with the stream as it was, if there is none. |
| HuffmanDecoder.DecodeAll | src/apps/lib/stb_image.h:4042-4091 | Round trip: the encoding of any message decodes to it, and what follows is still in the stream. |
| HuffmanDecoder.DecodesOnly | src/apps/lib/stb_image.h:4061-4091 | If any symbol's code starts the stream, it is the one decoded. |
| HuffmanCodes.MatchUnique | src/apps/lib/stb_image.h:3983-3994 | A bit stream starts with the code of at most one symbol. |
| HuffmanCodes.PrefixFree | src/apps/lib/stb_image.h:3983-3994 | No code is the beginning of another one. |
| HuffmanCodes.CodeIsSum | src/apps/lib/stb_image.h:3983-3994 | Canonical: as a binary fraction a symbol's code is the sum of 2^-length over the symbols before it, those with shorter codes first and those of one length in their order. |
| HuffmanCodes.MatchesBits | src/apps/lib/stb_image.h:3996-4012 | To start with a code means to have its bits, most significant first, one by one. |
| BitOps.BitReverseIs | src/apps/lib/stb_image.h:3952-3967 | Masks and shifts reverse the low bits of any number. |
| Scheduler.RotatedTop | src/kernel/task.cpp:280-301 | A switch selects the first task of the highest level that has one, and moves only the task that was running. |
| Scheduler.SleptValid | src/kernel/task.cpp:145-159 | Putting any task but the idle one to sleep, running or not, current or not, keeps every running task once in its level's queue and every other in none. |
| Scheduler.WokenValid | src/kernel/task.cpp:172-190 | The same for waking a task and for changing its level, and a higher level with work is never overlooked. |
| TaskOrder.WokenOrder | src/kernel/task.cpp:172-278 | A task that is woken or changes its level comes last in its queue and moves no other, and the current task stays current, also if it changes its own level. |
| TaskOrder.StepOrder | src/kernel/task.cpp:118-301 | No step moves any task but the caller and those that it wakes or puts to sleep, and none takes the processor from the current task unless that ends, sleeps, waits or is preempted. |
| TaskOrder.StartsAsleep | src/kernel/task.cpp:131-134 | A new task has a number of its own and the default level, and sleeps in no queue and without messages. |
| TaskOrder.RunOrder | src/kernel/task.cpp:118-301 | Over every run the tasks that no step is about keep their queues and their order. |
| TaskOrder.RunMail | src/kernel/task.cpp:71-84 | Over every run what a task had and was sent is what it took, followed by what it still has: messages arrive in order, each once. |
| Tasks.RunValid | src/kernel/task.cpp:118-301 | Every run of task starts, wake-ups, sleeps by others, messages, waits, exits and preemptions keeps the whole invariant: queues, levels, registered waiters, messages and exit codes. |
| Tasks.TaskManager.Perform | src/kernel/task.cpp:118-301 | The manager's methods compute those steps in place. |
| Tasks.RunHistory | src/kernel/task.cpp:218-250 | What has ended and what was delivered is never taken back. |
| TaskSpec.DeliveredOnce | src/kernel/task.cpp:237-250 | WaitFinish returns a code only if its task ended with that code, and no task's code twice. |
| TaskSpec.NoLostExit | src/kernel/task.cpp:218-250 | Who waits for a task that has ended is awake, exactly unless another task put it to sleep. |
| TaskSpec.NoLostMessage | src/kernel/task.cpp:71-84 | A task that slept on an empty message queue is in its run queue as soon as there is a message, exactly unless another put it to sleep. |
| Scheduler.FullRound | src/kernel/task.cpp:280-301 | As many switches as the top level has tasks bring its queue back. |
| Timers.TimerManager.Tick | src/kernel/timer.cpp:59-85 | Exactly the due timers leave the queue, each sends its one message, and the task timer is armed again and reported. |
| Timers.AllSentMail | src/kernel/timer.cpp:76-81 | After a tick every task has, behind the messages it had, those of its own timers in the order in which they fired, with their timeouts and values. |
| TimeSharing.Dispatched | src/kernel/timer.cpp:59-97 | With k undisturbed tasks at the top level the one at place i runs after 2i ticks: each of them within 2k. |
| XhciRings.Delivery | src/kernel/drivers/usb/xhci/ring.cpp:31-54 | A consumer interleaved between any two 32-bit stores gets whole entries only, in the order in which they were pushed, each once, across the link entry. |
| CycleRings.StampIs | src/kernel/drivers/usb/xhci/ring.cpp:31-37 | The cycle bit is the lowest bit of the last word, and the other 31 are the entry's own. |
| XhciRings.EventDelivery | src/kernel/drivers/usb/xhci/ring.hpp:88-96 | The driver gets from the event ring exactly what a conforming controller wrote, in order. |
| XhciRings.RoomForPush | src/kernel/drivers/usb/xhci/ring.cpp:39-54 | Without any move of the consumer there is room for one more entry, and for the link entry if it comes next, if and only if with it at most n - 2 entries are outstanding, or n - 1 are and the consumer is not at the link entry. |
| Rings.Ring.Push | src/kernel/drivers/usb/xhci/ring.cpp:31-54 | The stores of a push, in their order, are those of the entry and, at the ring's end, of the link; the ring has taken exactly one more entry. |
| Rings.Ring.DriverStores | src/kernel/drivers/usb/xhci/ring.cpp:14-54 | In every interleaved run with a consumer the producer's stores are the first ones that the pushes made, in the order in which they made them. |
| Rings.EventRing.Pop | src/kernel/drivers/usb/xhci/ring.cpp:101-113 | After a pop the ring's front is the next event and the cycle bit fits it, also past the end. |
| XhciPorts.RunValid | src/kernel/drivers/usb/xhci/xhci.cpp:117-313 | In every state that any events of a conforming controller lead to, a port is resetting, enabling a slot or addressing exactly if it is the one being addressed, slots belong to the ports that asked for them, and no port ever went back a phase; while ports stay connected a waiting port implies that some port is being addressed. |
| PortProgress.HandledExactly | src/kernel/drivers/usb/xhci/xhci.cpp:117-313 | An event moves a port if and only if it is the one that the port waits for in its phase, then to the next phase and with the next command; without such a port no command is issued. |
| PortProgress.RunProgress | src/kernel/drivers/usb/xhci/xhci.cpp:117-313 | Over every run each event that a port waits for brings it a phase further until it is configured, whatever happens to other ports, and nothing else moves it. |
| PortProgress.BroughtUp | src/kernel/drivers/usb/xhci/xhci.cpp:117-313 | From the initial state the six events of any one port's connection leave it configured, no other port moved and no command under way. |
| XhciPorts.AddressDoneValid | src/kernel/drivers/usb/xhci/xhci.cpp:271-297 | After a successful Address Device completion no waiting port is forgotten if and only if the first waiting port is still connected. |
| XhciPorts.SlotOfPort | src/kernel/drivers/usb/xhci/xhci.cpp:265-270 | An Enable Slot completion binds its slot to the port that asked. |
| PortSetup.Driver.Handle | src/kernel/drivers/usb/xhci/xhci.cpp:223-313 | The event handlers make those steps in place, move exactly the ports that wait for the event, and return their errors. |
| FrameBuffers.FrameBuffer.Copy | src/kernel/frame_buffer.cpp:60-87 | After clipping exactly the points of the area that lie in both buffers have the source's pixels; for different pixel formats nothing changes. |
| FrameBuffers.FrameBuffer.Move | src/kernel/frame_buffer.cpp:89-119 | The destination holds what the source held before, however the two overlap; every other pixel stays. |
| Windows.Window.DrawTo | src/kernel/ui/window.cpp:66-88 | A point gets the window's pixel at its distance from the window's position if that is not of the transparent color or, without one, if the point is in the drawn area; every other point stays. |
| Layers.LayerManager.Draw | src/kernel/ui/layer.cpp:86-91 | If only the area was wrong, then after Draw(area) the back buffer and the screen are the composition of all layers everywhere. |
| Layers.LayerManager.DrawPart | src/kernel/ui/layer.cpp:97-115 | Draw(id, area): afterwards exactly the points are right, inside the area and outside, where drawing from the layer upwards restores the composition; an opaque window is composed again if only points were wrong whose distance from the window's position lies in the area. |
| LayerStacks.Layer.PartIs | src/kernel/ui/layer.cpp:97-115 | The drawn part of a window holds exactly its points that lie in the area in the window's own coordinates, or all of them if the sizes are negative. |
| Compositing.RestoredExactly | src/kernel/ui/layer.cpp:86-115 | The condition at one point: inside the area a layer that is drawn shows something there, or the buffer had what is below those layers; outside, the screen was right and the topmost transparent layer that is drawn and shows something shows the color to be seen, or, if there is none, the buffer was right. |
| Compositing.StaysRight | src/kernel/ui/layer.cpp:97-115 | A right point outside the area stays right if and only if the topmost transparent layer that is drawn and shows something there shows the color to be seen. |
| Layers.LayerManager.Move | src/kernel/ui/layer.cpp:117-124 | Moving a layer keeps the screen equal to the composition of the stack. |
| Layers.LayerManager.MoveRelative | src/kernel/ui/layer.cpp:126-133 | The same for a relative move. |
| Layers.LayerManager.UpDown | src/kernel/ui/layer.cpp:135-158 | The layer is in the stack exactly once, at the given height of the others, whose order stays; a negative height hides it. |
| Layers.LayerManager.FindLayerByPosition | src/kernel/ui/layer.cpp:168-187 | The topmost layer at a point but one, if and only if there is any. |
| LayerStacks.HitIsSeen | src/kernel/ui/layer.cpp:168-187 | An opaque layer found at a point is the one whose pixel is seen there once the excluded layer is taken away. |
| ActiveLayers.ActiveLayer.Activate | src/kernel/ui/layer.cpp:234-255 | The layer is raised to just below the mouse, both tasks are told, and with opaque windows the screen stays the composition of the stack. |
| Pipes.Faithful | src/kernel/terminal.cpp:1121-1180 | For every interleaving of writes, reads of any lengths and other messages, what is read is a prefix of what was written; after the end nothing of it is lost. |
| Pipes.Drained | src/kernel/terminal.cpp:1121-1158 | After FinishWrite the reads bring all that is left, and every later one brings nothing. |
| PipeDescriptors.PipeDescriptor.Read | src/kernel/terminal.cpp:1121-1158 | The read in place, with its buffer of sixteen bytes, takes the same bytes and leaves the same rest. |
| TextFiles.SaveLoad | src/apps/tedit/tedit.cpp:95-234 | Lines of code points below 0x110000 that are saved and loaded again are the same if and only if there is at least one and none holds a newline. |
| TextFiles.LoadEncoded | src/apps/tedit/tedit.cpp:95-164 | Loading undoes encoding: any code points below 0x110000 come back, cut at the newlines. |
| TextFiles.UnitIs | src/apps/tedit/tedit.cpp:114-160 | Bytes that make a whole character are loaded as one, and of all others each is loaded with the mark of an invalid byte. |
| Utf8.EncodeInTable | src/apps/tedit/tedit.cpp:166-189 | The encoding is that of the table in section 3 of RFC 3629: number of bytes, ranges of the bytes, and digits to the base 64. |
| TextFiles.SaveFile | src/apps/tedit/tedit.cpp:191-234 | Succeeds exactly if every code point can be encoded, and otherwise has written all before the first that cannot. |
| Utf8.ConvertEncoded | src/kernel/font.cpp:71-115 | The kernel's decoder gives back each encoded code point and its length, whatever follows. |

## Findings

Properties that one might expect and that the code does not have. Each has an input in the project, and each exact condition is
a lemma.

| member | source | what fails, and when exactly |
|---|---|---|
| FatRuns.GrowByTwo | src/kernel/fat.cpp:349 | `ExtendCluster` returns the new last cluster and `Write` goes on there: a write that needs two new clusters leaves a hole of old bytes in the file. `WriteExactly` has the condition: at most one new cluster. |
| FatCursors.ReadRunsOff | src/kernel/fat.cpp:318-321 | A reader that has read a file to the end of its last cluster holds the end mark, and cannot go on when the file grows. `WriteWhileReading` has the condition. |
| MappedPages.ShrunkFile | src/kernel/fat.cpp:306 | A file mapped to two pages is rewritten shorter, and the second page, touched only then, shows the old bytes: `file_size - rd_off_` wraps around. `LoadedShows` has the condition. |
| FatLookup.ReusedEntry | src/kernel/fat.cpp:276-278 | A file created in a deleted entry's place keeps that entry's first cluster. `NewFileIs` has the condition. |
| FatLookup.DoubleSlash | src/kernel/fat.cpp:12-31 | `dir//name` is created in `dir` but searched for in the root, as is any path with an odd number of empty elements before its name; `a//b/c` and `a///c` are found. `FoundAgain` has the condition, `FatPaths.RestartExamples` the paths. |
| FatLookup.FileAsParent | src/kernel/fat.cpp:267-277 | The parent may be an ordinary file: `F/X` is accepted, and an entry is written over the bytes of `F`, which no search finds. `CreateFile` and `FoundAgain` have the condition: the entry is in a directory exactly if the parent is one. |
| XhciPorts.ForgottenPort | src/kernel/drivers/usb/xhci/xhci.cpp:286-295 | Three ports attach, the first waiting one is gone when its turn comes, and the other is never reset. `AddressDoneValid` has the condition. |
| XhciRings.NoRoomForLink | src/kernel/drivers/usb/xhci/ring.cpp:43-51 | With n - 2 entries outstanding and the consumer at the link entry, one more push overwrites an entry that was not consumed (`CycleRings.TornEntry`, `CycleRings.LostEntry`). `RoomForPush` has the condition. |
| ShownThrough.ThroughBelowTop | src/kernel/ui/layer.cpp:86-115 | Of three windows the middle one has a transparent color: drawing one of its points again spoils the point beside it, as what is above the transparent window is seen through it. `DrawPart` has the condition, `StaysRight` for points outside the area. |

## Left out

What the model does not do, and how it abstracts from what it does:

- Kernel procedures are atomic: system calls, fault handlers and interrupt handlers do not interleave inside, and a context switch is a change of the current task.
- Memory is a sequence of frames of 512 words, a word a record of its page-map bit fields (`MappedPages.ValueOfWord`: no bit is lost); TLBs, the CPU's registers and identity mapping are not modelled.
- The CPU ignores read-only entries in kernel mode (CR0.WP is cleared), so isolation is about user-mode stores to the upper half; kernel-mode stores into user pages are left out, but for the arguments' page.
- ELF parsing and the argument vector: segments and the arguments' page are parameters; segments lie in the upper half below the stack, as linked programs do, and entry points are left out.
- Frames that a failed launch has taken stay taken, as in the code; the model counts them as the kernel's.
- Open files are numbered for the whole system and stay what they are during one `AppRuns.Run`; runs require that pages still to be touched have a part of their file's chain: a page behind the chain's end makes the code follow the end mark.
- FileRuns.Session: a file is rewritten from its start through a new descriptor, by writes of at most a cluster each, for which free clusters suffice; each file is open once, and files get no shorter unless clusters are whole pages, as a mapped page could otherwise lie behind its chain.
- Applications.AppSystem.MapFile: requires that the file fits below the earlier mappings, as the code does not check for it.
- MappedPages.LoadPage: a page that starts behind the file's end and reaches past its chain is excluded, where the code reads through the end mark.
- LatePages.MapWriteFetch: the page must start inside the file as rewritten or lie in its old chain, for the same reason.
- BitmapMemoryManager.Stat is left out. Memory descriptors say whether their memory is available; the types that are so are not modelled.
- FatFiles.FileDescriptor.Read: a cursor behind the end and behind the chain is excluded, where the code reads through the end mark.
- FatFiles.FileDescriptor.Load: an offset behind the chain is excluded, where the code follows the end mark.
- FatFiles.FileDescriptor.Write: requires enough free clusters, as the search for them does not end without; a malformed FAT and the FAT entries' reserved bits are excluded.
- Directory clusters are tables of entries in `FatLookup` and blocks of bytes in `FatFiles`, not both at once; time stamps, volume labels and long names are left out.
- FatLookup.Directories.CreateFile: the parent has a cluster and a well-formed chain, apart from all directories if it is an ordinary file; there is a vacant entry or a free cluster; the path holds no NUL, and a vacant entry is not marked as a directory; that other searches are unchanged is stated for a parent without deleted entries.
- User buffers of reads and writes are byte sequences.
- The decoder's bit buffer is a number of at most 32 bits and its table entries are numbers below 0x10000; that the 16-bit casts lose nothing is part of the proof. Inflating itself is left out.
- A task is a record under its number; its stack, registers and files are left out. One waiter per awaited task, and the idle task neither sleeps nor ends. The order in which timers of equal timeout fire is left open.
- Memory ordering of the ring's stores is program order; doorbells, registers and the event ring's dequeue register are an index.
- Port 0, slot 0 and controllers that do not follow the protocol are excluded; register contents come with the events; class drivers and descriptors are left out.
- Coordinates do not overflow, all buffers have one pixel format and no padding, areas have sizes of one sign, and a title is drawn as a list of strokes; every layer in the stack has a window.
- Layers.LayerManager.DrawPart: requires the layer in the stack, as the code otherwise draws an uninitialised rectangle.
- ActiveLayers.ActiveLayer.Activate: requires the mouse's layer in the stack when a window is activated.
- Window::Move moves the copy in screen format only, as in the code; `Layers` does not use it.
- A pipe read that has to wait returns nothing and is tried again.
- TextFiles.SaveFile: failing file operations other than a missing file on loading are left out.
- Methods that the code does not have are parts of one that it has: among others `SetupEntry`, `LinkEntry`, `CopyTableEntry`, `ScanDescriptor`, `BuildImage`, `BuildCopy`, `SetupUserPages`, `StoreWord`, `MakeWritable`, `FindLast`, `FindFree`, `BeginWrite`, `MoveOn`, `CopyChunk`, `WriteClusters`, `ReadClusters`, `FindCluster`, `SetLevel`, `PlaceSymbol`, `FillByte`, `FindLength`, `HighestLevel`, `StreamWrite` and `ReadChunk`.

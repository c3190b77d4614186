# Nachos 4, verified in Dafny

Nachos is a small uniprocessor kernel on a simulated MIPS machine. This project models
its hard core in Dafny and proves what the code is there to guarantee.
`dafny verify dfyconfig.toml` checks the whole project.

The project has four parts.

**Threads, synchronization and interrupts.** `Semaphores` gives a semaphore as a value
and a FIFO queue, with one pass of the loop of `P` as the atomic step, so that a thread
may barge in between a `V` and the woken thread's next test. `SynchList`, `SynchDisk` and
`Threads` are step systems: every thread has a program counter, a step is one statement
or one stretch with interrupts off, and a failed `ASSERT` or the use of a deleted object
is the outcome `Fault`. Their theorems hold in every state of every interleaving.
`SynchObjects` holds the same objects in imperative form, each method tied to the
functions that the step systems are made of. `Interrupts` is simulated time and the
sorted queue of pending interrupts, for arbitrary device handlers. `SynchListHistory`,
`SynchDiskHistory`, `ThreadsHistory` and `InterruptTimes` set what was called or asked for,
over whole histories, against what happens.

**The file system.** `Bitmap`, `PersistentBitmap`, `FileHeader`, `OpenFile`, `Directory`
and `FileSystem` go from bits in words up to `Create`, `Remove` and writes. The free map
and the directory are files on the disk they describe; the invariant `FileSystems.Ok` is
read off the bytes of the disk and nothing else. `Handles` is about open files that
outlive changes of the directory. The model is of the code compiled with `FILESYS_STUB`
off.

**The processor.** `Words`, `Multiply`, `VirtualMemory`, `Mips`, `Instructions`, `Hazards`,
`Unaligned`, `Programs` and `Machine` cover the instruction set with the `SIM_FIX` branches, delayed
loads, address translation and memory. Words are natural numbers below 2^32 and every
wrap-around is written out. `Mips` also defines a machine whose loads take effect at once,
which the real one is proved to refine; `Hazards` says exactly when a single instruction
agrees with it.

**Containers and disk timing.** `LinkedList` (cells and pointers), `HashTable` and
`DiskTiming`.

Preconditions that the code leaves to its callers are kept as preconditions: `Create`
needs `initialSize` of at most `MaxFileSize`, because `Allocate` does not check
`NumDirect`; reads and writes need a position of at least 0; `Append`, `Insert` and the
other operations that assert the absence or presence of an item need just that.

Where the code and its comments or the hardware differ, the model follows the code:

- `SRL` and `SRLV` shift a signed variable, so they copy the sign; on the hardware they
  shift in zeros. `Mips.LogicalShift` says exactly when that is the same.
- `BGEZAL`, `BLTZAL` and `JALR` write the link before they read `rs`. `Mips.LinkOrder` says
  exactly when that makes no difference.
- Directory names are compared on their first nine characters only.
- An open file keeps the header it was opened with. After its file is removed, its sectors
  may be given to other files, as data or as headers, and writes through it change those.
  `Handles` says exactly when a handle is safe, for the file system and for other files,
  and that programs are safe which stop using a handle once its name is removed.
- A second `Fork` of a thread fails an `ASSERT` only if the thread is on the ready list;
  otherwise it silently replaces the thread's stack.
- `WriteAt` may store unspecified bytes past the end of the file in its last sector; the
  file itself is exact.
- `RemoveFront` on an empty list fails an assertion; its comment says that it returns
  nothing.
- An interrupt may fire up to 9 ticks after its time, because kernel time advances in
  steps of 10.

## Model

| member | source | states |
|---|---|---|
| `Semaphores.TryKeepsLock` | code/threads/synch.cc:76-92 | A pass of P on a lock's semaphore keeps: value plus threads inside is 1, queue members are exactly the sleepers, and a free lock with sleepers has a woken thread that has not re-tested |
| `Semaphores.VKeepsLock` | code/threads/synch.cc:103-117 | V by the thread inside keeps the same; it finds the value 0 and wakes only a sleeper |
| `Semaphores.InsiderUnique` | code/threads/synch.cc:181-203 | Two threads inside the lock are the same thread |
| `SynchList.StepKeeps` | code/threads/synchlist.cc:53-81 | From any state that satisfies the invariant, a step of any thread fails an ASSERT or touches a deleted waiter if and only if it appends an item already in the list; otherwise the invariant holds again |
| `SynchList.RunInv` | code/threads/synchlist.cc:53-81 | The invariant of lock, condition, waiters and list holds in every state of every interleaving |
| `SynchList.Fifo` | code/threads/synchlist.cc:53-81 | In every state the items appended so far are the items removed so far followed by the list, and both histories only grow |
| `SynchList.MutualExclusion` | code/threads/synch.cc:181-203 | In every state of every run the lock's semaphore value plus the number of threads holding the lock is 1 |
| `SynchList.NoLostWakeup` | code/threads/synchlist.cc:71-81 | When the lock is free and a consumer is still in waitQueue, the list is no longer than the number of signalled consumers that have not re-tested it |
| `SynchList.SleepersGetHelp` | code/threads/synch.cc:76-117 | While a thread sleeps on the lock, or a consumer sleeps although the list has items, some thread can take a step |
| `SynchList.OnlyTheHolder` | code/threads/synch.cc:244-283 | Only the thread recorded as the lock's holder changes waitQueue or the list |
| `SynchList.WaiterLifetime` | code/threads/synch.cc:244-256 | A waiter's semaphore, when deleted, has received exactly one V, has value 0 and an empty queue, is not in waitQueue, and is deleted by its own thread, which holds the lock |
| `SynchList.BroadcastSignalsAll` | code/threads/synch.cc:292-297 | When Broadcast ends, every waiter that was queued when it began has received exactly one V in its life |
| `SynchList.DuringBroadcast` | code/threads/synch.cc:292-297 | While a thread broadcasts, a step of any thread gives a V to a waiter only if it is the broadcaster's step and the waiter was in the queue when Broadcast began; no waiter is made or deleted |
| `SynchList.BroadcastExact` | code/threads/synch.cc:292-297 | Over the segment of any run from the call to the end of the drain, whatever other threads do in between: each waiter that was in the queue gets exactly one V and every other waiter none |
| `SynchListHistory.Linearizable` | code/threads/synchlist.cc:53-81 | In every interleaving, a plain queue on which list->Append and list->RemoveFront happen one by one, in the order of the steps, has at any time the contents of the list and gives each RemoveFront the item that it returns |
| `SynchListHistory.ProgramOrder` | code/threads/synchlist.cc:53-81 | Each thread's calls get their events in program order, one event each and the one that the call asks for; a call is owed its event exactly until it happens, returns only afterwards, and a RemoveFront returns the item of its event |
| `SynchListHistory.FifoOfEvents` | code/threads/synchlist.cc:53-81 | The items that the Appends put in are those that the RemoveFronts got out, in the same order, followed by the list |
| `SynchListHistory.LogsAreEvents` | code/threads/synchlist.cc:53-81 | The logs in the states are the sequences of items of the Append and RemoveFront steps taken |
| `SynchListHistory.StepMoves` | code/threads/synchlist.cc:53-81 | Which statement each step leads its thread to, and that other threads only ever get woken by it |
| `SynchListHistory.CanStepExact` | code/threads/synchlist.cc:53-81 | A thread can take a step if and only if it is not asleep; an idle one must make a call, one that starts to wait needs a fresh semaphore, and an item in the list is not appended again |
| `SynchListHistory.LockOrder` | code/threads/synch.cc:76-117 | Threads are woken at the lock in the order in which they went to sleep there |
| `SynchListHistory.SignalOrder` | code/threads/synch.cc:244-297 | Waiters are signalled in the order in which they called Wait |
| `SynchDisk.StepKeeps` | code/filesys/synchdisk.cc:58-94 | No step of a caller or of the disk interrupt fails an ASSERT, that of an idle disk on each request included, and the invariant is kept |
| `SynchDisk.RunInv` | code/filesys/synchdisk.cc:58-94 | The invariant holds in every state of every interleaving of callers with disk interrupts |
| `SynchDisk.Serialised` | code/filesys/synchdisk.cc:58-82 | At most one of: a request outstanding, a completion not yet consumed; requests issued are those completed plus the one outstanding |
| `SynchDisk.ReturnsAfterOwnInterrupt` | code/filesys/synchdisk.cc:58-94 | A call leaves P only after the interrupt of its own request, with the disk idle |
| `SynchDisk.SleepersGetHelp` | code/filesys/synchdisk.cc:58-94 | While a caller sleeps, some caller or the interrupt can move |
| `SynchDiskHistory.OneRequestPerCall` | code/filesys/synchdisk.cc:58-82 | Over every history, each call sends exactly one request to the device, and returns exactly once, after that |
| `SynchDiskHistory.DeviceCounts` | code/filesys/synchdisk.cc:58-94 | The device has been issued as many requests as callers sent and has completed one at each interrupt |
| `SynchDiskHistory.StepDevice` | code/filesys/synchdisk.cc:58-94 | The device becomes active by a request and idle by its interrupt, and by nothing else; the caller then waits for the number of its own request |
| `SynchDiskHistory.CanStepExact` | code/filesys/synchdisk.cc:58-94 | A caller can take a step if and only if it is not asleep; the interrupt can happen if and only if the device is active |
| `Threads.StepKeeps` | code/threads/thread.cc:92-255 | From any state that satisfies the invariant, an operation of a thread or a V from an interrupt fails an ASSERT if and only if it is a Fork of a thread on the ready list: the ASSERTs of the lists, on the interrupt level, on toBeDestroyed and on self-deletion hold otherwise. It replaces the stack of a thread in use if and only if it is a second Fork of any other thread. All else keeps the invariant |
| `Threads.RunInv` | code/threads/scheduler.cc:57-167 | The invariant holds in every state of every run from boot |
| `Threads.Partition` | code/threads/thread.cc:147-255 | Every live thread is in exactly one place: current, the ready list, one semaphore's queue, not yet forked, or finishing |
| `Threads.NothingDoomed` | code/threads/scheduler.cc:104-113 | Wherever Scheduler::Run can be entered, toBeDestroyed is NULL |
| `Threads.DeletedOnce` | code/threads/scheduler.cc:161-167 | A thread is deleted at most once, and never while alive or current |
| `Threads.FinishedGoes` | code/threads/scheduler.cc:104-167 | After Finish the next switch is followed at once by the deletion of exactly the finished thread |
| `Threads.NoLostWakeup` | code/threads/synch.cc:76-117 | For every semaphore: value is initial plus completed Vs minus completed Ps; with sleepers in the queue, value is at most the number of woken threads that have not re-tested; each of those is ready or about to run |
| `Threads.ReadyOrder` | code/threads/scheduler.cc:57-84 | The thread at position k of the ready list is the one that the (k+1)-th FindNextToRun from then on returns |
| `Threads.LogsGrow` | code/threads/scheduler.cc:57-84 | The histories of ReadyToRun and FindNextToRun only grow |
| `ThreadsHistory.PossibleExact` | code/threads/thread.cc:92-255 | Exactly when each operation can happen |
| `ThreadsHistory.ReadyEffect` | code/threads/scheduler.cc:57-84 | Fork, Yield and V put a thread at the end of the ready list, a switch takes the first one and makes it current, and nothing else changes either |
| `ThreadsHistory.ModeEffect` | code/threads/thread.cc:168-255 | Finish, a P that finds 0 and a Yield with another thread ready give up the processor; a Yield without one and a P that passes run on |
| `ThreadsHistory.SemEffect` | code/threads/synch.cc:76-117 | A pass of P takes one from the value or puts the caller at the end of the queue; V adds one and takes the first sleeper off; nothing else touches a semaphore |
| `ThreadsHistory.ThreadEffect` | code/threads/thread.cc:92-255 | Which thread an operation sets to doing what; threads come by creation and go by deletion only |
| `ThreadsHistory.DeathEffect` | code/threads/scheduler.cc:104-167 | A finished thread is marked when the processor leaves it, and deleted by the next thread that runs |
| `ThreadsHistory.LevelEffect` | code/threads/thread.cc:180-255 | The interrupt level after every operation: off from when a thread gives up the processor until the next one goes on |
| `ThreadsHistory.LevelRestored` | code/threads/synch.cc:76-92 | Over every history, a thread that called P or Yield goes on with interrupts on if and only if they were on at the call |
| `ThreadsHistory.SemaphoreLaw` | code/threads/synch.cc:76-117 | Over every history, a semaphore's value is what it was made with, plus the Vs on it, minus the Ps that got past |
| `ThreadsHistory.CallsReturn` | code/threads/synch.cc:76-92 | Every call of P takes one from the value exactly once; until then its thread is asleep or on its way to test again |
| `ThreadsHistory.SleepOrder` | code/threads/synch.cc:76-117 | Each semaphore wakes its sleepers in the order in which they fell asleep |
| `ThreadsHistory.ReadyFifo` | code/threads/scheduler.cc:57-84 | Threads get the processor in the order in which Fork, Yield and V made them ready |
| `SynchObjects.Scheduler.ReadyToRun` | code/threads/scheduler.cc:57-64 | The thread is put last in the ready list, which still holds no thread twice |
| `SynchObjects.Scheduler.FindNextToRun` | code/threads/scheduler.cc:75-84 | The first ready thread is taken off and is then nowhere in the list; none if the list is empty |
| `SynchObjects.Semaphore.constructor` | code/threads/synch.cc:47-52 | The value is the initial one and nobody waits |
| `SynchObjects.Semaphore.TestP` | code/threads/synch.cc:76-92 | One pass of the loop of P changes the semaphore as the state machines' TryP says; it succeeds exactly when the value was positive |
| `SynchObjects.Semaphore.Up` | code/threads/synch.cc:103-117 | V changes the semaphore as the state machines' V says and makes the first sleeper, if any, ready |
| `SynchObjects.Lock.constructor` | code/threads/synch.cc:158-163 | The semaphore starts at 1 and nobody holds the lock |
| `SynchObjects.Lock.TestAcquire` | code/threads/synch.cc:181-185 | A pass of Acquire: the holder is recorded exactly when the semaphore was passed |
| `SynchObjects.Lock.Release` | code/threads/synch.cc:198-203 | The holder is cleared and the semaphore gets one V |
| `SynchObjects.Condition.Enter` | code/threads/synch.cc:244-254 | Wait up to its sleep: a fresh semaphore of value 0 joins the end of waitQueue, the lock is released and the first thread that sleeps on it, if any, becomes ready |
| `SynchObjects.Condition.Signal` | code/threads/synch.cc:273-283 | Called with the lock held, as asserted: the first waiter leaves the queue and gets one V; with no waiter nothing changes |
| `SynchObjects.Condition.Broadcast` | code/threads/synch.cc:292-297 | Called with the lock held unless nobody waits: every waiter in the queue gets one V and no other semaphore changes; the sleepers become ready in queue order |
| `Interrupts.StepKeeps` | code/machine/interrupt.cc:148-322 | Schedule, OneTick and Idle keep order, times, exactly-once accounting, a pending list strictly in the future and the clock sum, for any handlers that schedule only into the future |
| `Interrupts.Run` | code/machine/interrupt.cc:148-322 | The state after any sequence of operations satisfies that invariant |
| `Interrupts.FiresOnceWhenDue` | code/machine/interrupt.cc:281-322 | A scheduled interrupt has fired exactly once if its time has come, and not at all if not |
| `Interrupts.Timely` | code/machine/interrupt.cc:148-322 | Interrupts fire in order of due time, ties in scheduling order, never early and at most 9 ticks late; what is pending lies in the future; total ticks are idle plus system plus user |
| `InterruptTimes.ScheduleExact` | code/machine/interrupt.cc:257-266 | A request made now is due fromNow ticks later, with its device, and joins what is pending |
| `InterruptTimes.AskedIsScheduled` | code/machine/interrupt.cc:257-322 | Over any run, what is scheduled is exactly what devices and handlers asked for, each due its number of ticks after it was asked |
| `InterruptTimes.OnTime` | code/machine/interrupt.cc:257-322 | An interrupt asked for at time T, n ticks ahead, fires exactly once, not before T + n and at most 9 ticks after; until T + n it has not fired |
| `InterruptTimes.ClockExact` | code/machine/interrupt.cc:154-160 | User time is one for each tick in user mode, system time ten for each tick in system mode |
| `InterruptTimes.StepExact` | code/machine/interrupt.cc:148-322 | A tick or idling moves the clock by the tick, or to the first pending interrupt, and then fires what is due, at that time, with the effects of the handlers and no others |
| `InterruptTimes.TickYields` | code/machine/interrupt.cc:169-175 | A tick asks for a context switch if and only if a handler wanted one, at this tick or while the machine idled before |
| `Interrupts.FireOneFacts` | code/machine/interrupt.cc:314-319 | Each pass of the firing loop lowers the number of due interrupts, so the loop ends |
| `Interrupts.CompareIsPreorder` | code/machine/interrupt.cc:58-63 | PendingCompare is a total preorder, as sorted insertion needs |
| `Interrupts.Interrupt.constructor` | code/machine/interrupt.cc:72-79 | Nothing pending, interrupts off, system mode |
| `Interrupts.Interrupt.Enter` | code/machine/interrupt.cc:257-266 | Schedule inserts the interrupt at its place in the sorted pending list |
| `Interrupts.Interrupt.Fire` | code/machine/interrupt.cc:315-317 | The first pending interrupt is taken off and its handler's requests scheduled |
| `Interrupts.Interrupt.CheckDue` | code/machine/interrupt.cc:281-322 | The do-while loop computes what CheckIfDue specifies, with and without advancing the clock |
| `Interrupts.Interrupt.Tick` | code/machine/interrupt.cc:148-176 | Time advances by the mode's tick, due interrupts fire, and a wanted context switch is reported once |
| `Interrupts.Interrupt.Wait` | code/machine/interrupt.cc:208-227 | Idle advances the clock to the first pending interrupt and fires it, or halts if there is none |
| `Interrupts.Interrupt.SetLevel` | code/machine/interrupt.cc:124-136 | Returns the old level; turning interrupts on from off takes one tick and reports the context switch that the tick wants; nothing else does |
| `LinkedList.InsertionIsStable` | code/lib/list.cc:234-260 | Sorted insertion keeps the order and puts the item after every item not greater than it and before the others |
| `LinkedList.InsertionAddsOne` | code/lib/list.cc:234-260 | Sorted insertion adds exactly one element |
| `LinkedList.Position` | code/lib/list.cc:234-260 | The place of insertion: before the first greater item |
| `LinkedList.List.constructor` | code/lib/list.cc:43-47 | The list is empty |
| `LinkedList.List.Append` | code/lib/list.cc:75-89 | The cells stay well linked and the sequence gains the item at its end |
| `LinkedList.List.Prepend` | code/lib/list.cc:98-112 | The same at the front |
| `LinkedList.List.RemoveFront` | code/lib/list.cc:125-142 | The first item is returned and leaves the sequence |
| `LinkedList.List.Remove` | code/lib/list.cc:151-178 | The item leaves the sequence, wherever it was, the order of the rest kept, and no other copy of it is left: the final ASSERT holds |
| `LinkedList.List.IsInList` | code/lib/list.cc:187-197 | True exactly when the item is in the sequence |
| `LinkedList.List.SanityCheck` | code/lib/list.cc:272-289 | The checks on first, last, numInList and reachability pass on every list so built |
| `LinkedList.List.SortedSanityCheck` | code/lib/list.cc:336-347 | The order checks pass on every sorted list |
| `LinkedList.List.Insert` | code/lib/list.cc:234-260 | The pointer-based insertion gives the sequence that stable sorted insertion gives, for any compare function |
| `Multiply.Mult` | code/machine/mipssim.cc:772-828 | For all 32-bit operands, hi and lo are the exact 64-bit unsigned product, or the exact two's-complement signed product, most negative operands included |
| `Multiply.UnsignedProduct` | code/machine/mipssim.cc:795-814 | The shift-and-add loop with its early break, on an arithmetically shifted multiplier, computes the exact product |
| `Multiply.AddShifted` | code/machine/mipssim.cc:801-804 | The two-word addition with carry is exact |
| `Multiply.Double` | code/machine/mipssim.cc:808-812 | The two-word left shift is exact |
| `Multiply.Negate` | code/machine/mipssim.cc:818-824 | Complement and increment give the two's complement of the double word |
| `VirtualMemory.InBounds` | code/machine/translate.cc:185-251 | A successful translation names an entry of the table, and the whole access lies in physical memory: the final ASSERT never fails |
| `VirtualMemory.TranslateExact` | code/machine/translate.cc:185-251 | Exactly which accesses succeed and at which physical address, and exactly which exception each of the others raises: misaligned or beyond the table, no valid entry, read-only, no such frame |
| `VirtualMemory.AccessMarks` | code/machine/translate.cc:244-246 | A successful access marks the entry it used, a write also as dirty, and changes nothing else in the table; a failed one reports the exception of the translation |
| `VirtualMemory.TlbAgrees` | code/machine/translate.cc:209-230 | If every valid TLB entry copies its valid page table entry, the TLB gives the page table's answer for every access, or a page fault exactly when no entry matches |
| `VirtualMemory.TranslateInjective` | code/machine/translate.cc:185-251 | With distinct frames, distinct virtual bytes are distinct physical bytes, through the page table or an agreeing TLB |
| `VirtualMemory.TouchTranslates` | code/machine/translate.cc:244-246 | Use and dirty bits never influence a later translation |
| `VirtualMemory.ReadAfterWrite` | code/machine/translate.cc:86-167 | After a successful WriteMem of 1, 2 or 4 bytes, ReadMem at the same address succeeds and returns the value, its low half, or its low byte with its sign |
| `VirtualMemory.ReadExact` | code/machine/translate.cc:86-120 | A successful read of 1, 2 or 4 bytes delivers exactly the bytes at those virtual addresses in little-endian order, a single byte with its sign, through any page table or TLB, and changes no virtual byte |
| `VirtualMemory.WriteExact` | code/machine/translate.cc:136-167 | A successful write of 1, 2 or 4 bytes changes exactly the bytes at those virtual addresses, for any page table with distinct frames, invalid and read-only pages included, or a TLB that agrees with it |
| `VirtualMemory.AccessBytes` | code/machine/translate.cc:185-251 | An access that translates is consecutive bytes of one frame: each of its bytes translates alone, to the next physical byte |
| `VirtualMemory.FirstHit` | code/machine/translate.cc:219-223 | The first matching TLB entry is used |
| `VirtualMemory.Store` | code/machine/translate.cc:148-164 | Exactly the addressed bytes change, to the bytes of the value in little-endian order |
| `Machines.Machine.constructor` | code/machine/machine.cc:55-76 | Registers and memory are zero, no load is in progress, and there is either a TLB of invalid entries or an empty page table: the state every method starts from |
| `Machines.Machine.FindInTlb` | code/machine/translate.cc:219-223 | The search loop finds the first matching entry, or none |
| `Machines.Machine.Translate` | code/machine/translate.cc:185-251 | The result, and the table with its use and dirty bits, are those of the specification |
| `Machines.Machine.ReadMem` | code/machine/translate.cc:86-120 | The value or the fault, and the state after, are those of the specification |
| `Machines.Machine.WriteMem` | code/machine/translate.cc:136-167 | The bytes of memory and the table after are those of the specification |
| `Mips.DecodeRegister` | code/machine/mipssim.cc:726-762 | The fields of a register-format word are recovered, and its operation is the table's entry for its low 6 bits |
| `Mips.DecodeImmediate` | code/machine/mipssim.cc:726-744 | The fields of an immediate-format word are recovered, the immediate with its sign |
| `Mips.OverflowExact` | code/machine/mipssim.cc:157-175 | The sign tests of ADD, ADDI and SUB hold exactly when the signed result does not fit, and otherwise the wrapped result is the exact one |
| `Mips.DivideExact` | code/machine/mipssim.cc:227-235 | DIV: quotient times divisor plus remainder is the dividend, with a remainder smaller than the divisor and of the dividend's sign |
| `Mips.ShiftRightExact` | code/machine/mipssim.cc:511-530 | SRA, SRAV, SRL and SRLV floor the signed division by a power of two |
| `Mips.LogicalShift` | code/machine/mipssim.cc:520-530 | SRL and SRLV give the quotient of the unsigned word, as a shift that brings in zeros does, if and only if the word is not negative or the distance is 0 |
| `Mips.LinkOrder` | code/machine/mipssim.cc:198-261 | Writing the link before reading rs makes no difference for any operands if and only if the instruction does not read the register it links, or is a branch to where it would go anyway |
| `Instructions.OpcodeExact` | code/machine/mipssim.h:117-150 | A word is decoded as an operation if and only if it has that operation's code in bits 26 to 31, in its low six bits, or in its rt field; all other words are unimplemented or reserved |
| `Instructions.FieldsExact` | code/machine/mipssim.cc:726-744 | The register fields of every word, and its last field: shift distance, jump index, or immediate with its sign |
| `Instructions.Arithmetic` | code/machine/mipssim.cc:157-540 | ADD, ADDI and SUB leave the exact signed result in the target, or trap with overflow if and only if it does not fit |
| `Instructions.Modular` | code/machine/mipssim.cc:177-544 | ADDU, ADDIU and SUBU leave the result modulo 2^32 |
| `Instructions.Logical` | code/machine/mipssim.cc:185-680 | AND, OR, XOR, NOR, ANDI, ORI and XORI bit by bit, the immediate with zeros above bit 15 |
| `Instructions.Comparison` | code/machine/mipssim.cc:479-509 | SLT, SLTI, SLTU and SLTIU leave 1 or 0 as the first operand is smaller, signed or unsigned, or not |
| `Instructions.LeftShift` | code/machine/mipssim.cc:470-477 | SLL and SLLV multiply by the power of two of the distance, in the instruction or in the low five bits of rs, modulo 2^32 |
| `Instructions.RightShift` | code/machine/mipssim.cc:511-530 | SRA, SRAV, SRL and SRLV divide by that power, rounding down |
| `Instructions.LoadUpper` | code/machine/mipssim.cc:295-298 | LUI puts the immediate in the upper half and zeros in the lower |
| `Instructions.DivideUnsigned` | code/machine/mipssim.cc:237-249 | DIVU leaves quotient and remainder in LO and HI, and zeros for divisor 0 |
| `Instructions.DivideSigned` | code/machine/mipssim.cc:227-235 | DIV leaves the truncating quotient and remainder, and zeros for divisor 0 |
| `Instructions.Product` | code/machine/mipssim.cc:436-444 | MULT and MULTU leave the exact product in HI and LO |
| `Instructions.HiLoMoves` | code/machine/mipssim.cc:420-434 | MFHI, MFLO, MTHI and MTLO |
| `Instructions.Branch` | code/machine/mipssim.cc:193-225 | Each branch, if its condition on the signed or compared registers holds, goes its offset in words from the delay slot, otherwise straight on; links as it should |
| `Instructions.JumpIndex` | code/machine/mipssim.cc:251-255 | J and JAL go to the word index within the current 256 megabytes |
| `Instructions.JumpRegister` | code/machine/mipssim.cc:257-261 | JR and JALR go to the address in rs |
| `Instructions.Traps` | code/machine/mipssim.cc:670-685 | SYSCALL and everything that is no instruction trap, and do nothing else |
| `Instructions.LoadExact` | code/machine/mipssim.cc:263-309 | LB, LBU, LH, LHU and LW: the trap of a misaligned or failing access, or the number that the bytes at the address stand for, with zeros or their sign |
| `Instructions.StoreExact` | code/machine/mipssim.cc:458-550 | SB, SH and SW: the trap of a failing access, or the memory after the write and nothing else |
| `Instructions.LoadAround` | code/machine/mipssim.cc:312-418 | LWL and LWR: what they read, how they merge it and where they report a failure |
| `Instructions.StoreAround` | code/machine/mipssim.cc:552-668 | SWL and SWR: what they read, merge and write back, and where they report a failure |
| `Instructions.FetchExact` | code/machine/mipssim.cc:132-136 | The instruction carried out is the four bytes at the program counter |
| `Instructions.OperandsExact` | code/machine/mipssim.cc:155-689 | Which registers an instruction works on |
| `Instructions.RetireExact` | code/machine/mipssim.cc:691-718 | Every register after an instruction, trap or not: the load in progress is finished over what the instruction writes, and its own load takes its place |
| `Mips.BitwiseExact` | code/machine/mipssim.cc:446-452 | AND, OR, XOR and NOR act bit by bit |
| `Mips.OutcomeShape` | code/machine/mipssim.cc:155-689 | Which register each instruction writes at once, and which it loads |
| `Mips.Irrelevant` | code/machine/mipssim.cc:155-689 | No instruction depends on a register it does not read |
| `Mips.PerformKeeps` | code/machine/mipssim.cc:691-718 | After every instruction register 0 is zero and LoadReg is below 32; after a trap no load is in progress |
| `Mips.PerformRefines` | code/machine/mipssim.cc:121-718 | One instruction that does not use the load in progress does, once that load is finished, what it does on a machine with immediate loads |
| `Mips.OperandsDecide` | code/machine/mipssim.cc:121-718 | Even with a load in progress an instruction does what it does with immediate loads if the operands it reads are the same and it writes into the register being loaded at most what is loaded |
| `Hazards.HazardExact` | code/machine/mipssim.cc:121-718 | For every instruction in every state: the delayed-load machine agrees with immediate loads if and only if the instruction has the same visible outcome, traps and memory included, on the operands it finds as on those the load would have left, and writes into the register being loaded nothing but the value being loaded |
| `Hazards.WriteHazard` | code/machine/mipssim.cc:691-718 | Any instruction that writes the register being loaded without reading it agrees with immediate loads if and only if it writes the value being loaded: here the load comes last |
| `Hazards.ReadHazard` | code/machine/mipssim.cc:155-689 | ADDU, SUBU, XOR, ADDIU, XORI, JR, MTHI or MTLO with the register being loaded as one operand agrees with immediate loads if and only if the load does not change that register |
| `Mips.Delayed` | code/machine/mipssim.cc:57-72 | In every state of every run, with interrupts anywhere and any well-behaved handler, register 0 is zero and LoadReg is below 32 |
| `Mips.DelayedRefines` | code/machine/mipssim.cc:121-718 | Over whole runs: if no instruction of the uninterrupted run uses a load in progress, then with interrupts finishing loads after any rounds whatever, finishing the last load gives the state of the immediate-load machine |
| `Unaligned.SpillBytes` | code/machine/mipssim.cc:583-599 | Byte by byte what SWL and SWR merge into memory, for each of the four alignments |
| `Unaligned.MergesAreSpills` | code/machine/mipssim.cc:343-361 | LWL and LWR merge as SWR and SWL do, from the other end |
| `Unaligned.StoreHalf` | code/machine/mipssim.cc:552-668 | SWL or SWR alone replaces exactly its part of the word around the address, and no other physical byte |
| `Unaligned.StorePair` | code/machine/mipssim.cc:552-668 | SWL at a+3 and then SWR at a write the register in little-endian order at a..a+3, for every a, page crossings included, and change no other byte of physical memory |
| `Unaligned.LoadPair` | code/machine/mipssim.cc:312-418 | LWL at a+3 and then LWR at a load exactly the word at a..a+3 through the pending load, whatever the target held, even when it is the base register |
| `Unaligned.UnalignedRoundTrip` | code/machine/mipssim.cc:312-668 | The four instructions in sequence recover the stored word |
| `Programs.RegistersAfter` | code/machine/mipssim.cc:691-718 | What any instruction that neither loads nor traps leaves in every register, the program counters included |
| `Programs.ProductMoves` | code/machine/mipssim.cc:420-444 | MULT or MULTU, then MFHI and MFLO: the two registers are the high and low word of the exact product |
| `Programs.QuotientMoves` | code/machine/mipssim.cc:227-426 | DIV, then MFHI and MFLO: the registers are the remainder and the quotient of the truncating division, and both zero for divisor 0 |
| `Programs.CallReturns` | code/machine/mipssim.cc:251-261 | JR through the register that JAL, JALR, BGEZAL or BLTZAL linked resumes two instructions after the call, the delay slots in between |
| `Programs.LoadAfterStore` | code/machine/mipssim.cc:262-550 | A load after a store of the same width at the same address delivers the low part stored, with or without its sign, through any page table or TLB |
| `Programs.StoreThenLoad` | code/machine/mipssim.cc:262-550 | The same for the two instructions run one after the other, the load finished |
| `Machines.Machine.DelayedLoad` | code/machine/mipssim.cc:712-718 | The registers after are those of the specification |
| `Machines.Machine.RaiseException` | code/machine/machine.cc:101-110 | Up to the handler: the bad address is recorded and the load in progress finished |
| `Machines.Machine.Load` | code/machine/mipssim.cc:262-418 | The load instructions: outcome, memory and table are those of the specification |
| `Machines.Machine.Store` | code/machine/mipssim.cc:458-468 | SB, SH, SW and the dispatch to SWL and SWR: outcome, memory and table are those of the specification |
| `Machines.Machine.Spill` | code/machine/mipssim.cc:552-668 | SWL and SWR: read, merge, write back, and the fault of either access |
| `Machines.Machine.Product` | code/machine/mipssim.cc:436-444 | MULT and MULTU run the multiplication loop and deliver the exact product |
| `Machines.Machine.Execute` | code/machine/mipssim.cc:155-689 | Every operation code: outcome, memory and table are those of the specification |
| `Machines.Machine.Retire` | code/machine/mipssim.cc:691-700 | Write-back, delayed load and program counters, in that order, give the specified registers |
| `Machines.Machine.Finish` | code/machine/mipssim.cc:147-701 | The whole of an instruction once fetched, trap or not, takes the machine to the specified state |
| `Machines.Machine.OneInstruction` | code/machine/mipssim.cc:121-701 | One instruction with its fetch takes registers, memory and table to the specified state, or reports the specified exception |
| `Bitmaps.FindsOne` | code/lib/bitmap.cc:111-139 | A clear bit is found exactly when NumClear is positive, and setting it lowers NumClear by one |
| `Bitmaps.FirstClear` | code/lib/bitmap.cc:111-120 | The first clear bit: everything below it is set |
| `Bitmaps.MarkWord` | code/lib/bitmap.cc:56-63 | Or-ing the mask into the word sets that bit of the map and no other |
| `Bitmaps.ClearWord` | code/lib/bitmap.cc:73-80 | And-ing the complement clears that bit and no other |
| `Bitmaps.TestsBit` | code/lib/bitmap.cc:90-99 | The masked word is nonzero exactly when the bit is set |
| `Bitmaps.Bitmap.constructor` | code/lib/bitmap.cc:21-36 | All bits are clear |
| `Bitmaps.Bitmap.Mark` | code/lib/bitmap.cc:56-63 | The map is the old one with that bit set |
| `Bitmaps.Bitmap.Clear` | code/lib/bitmap.cc:73-80 | The map is the old one with that bit clear |
| `Bitmaps.Bitmap.Test` | code/lib/bitmap.cc:90-99 | Whether the bit is set |
| `Bitmaps.Bitmap.FindAndSet` | code/lib/bitmap.cc:111-120 | The lowest clear bit is returned and set; with none, -1 and no change |
| `Bitmaps.Bitmap.CountClear` | code/lib/bitmap.cc:129-139 | The number of clear bits |
| `PersistentBitmaps.WrittenBits` | code/filesys/pbitmap.cc:76-79 | The words written out byte by byte hold the same bits |
| `PersistentBitmaps.FetchedBits` | code/filesys/pbitmap.cc:63-66 | The words read in from bytes hold the bits of the bytes |
| `PersistentBitmaps.BytesOfWords` | code/filesys/pbitmap.cc:63-79 | Bytes read in as words and written out again are the same bytes |
| `PersistentBitmaps.FetchFrom` | code/filesys/pbitmap.cc:63-66 | As much as the file has replaces the first bytes of the map, whatever the two lengths; a file as long as the map gives exactly its bits |
| `PersistentBitmaps.WriteBack` | code/filesys/pbitmap.cc:76-79 | As much of the map as the file has room for replaces the file's first bytes; a file as long as the map then holds exactly its bits; no sector but the file's data changes |
| `Disks.Disk.ReadSector` | code/filesys/synchdisk.cc:58-64 | A whole sector is copied into its place in the buffer |
| `Disks.Disk.WriteSector` | code/filesys/synchdisk.cc:76-82 | That sector becomes the buffer's bytes and no other changes |
| `FileHeaders.HeaderRoundTrip` | code/filesys/filehdr.cc:84-100 | A header written to its sector and fetched again is the same header |
| `FileHeaders.GrabSets` | code/filesys/filehdr.cc:44-58 | The allocated sectors were free, no other bit of the map changes, and the free count drops by their number |
| `FileHeaders.GrabAscends` | code/filesys/filehdr.cc:51-56 | They are distinct and ascending, and every sector left free lies above them |
| `FileHeaders.FileHeader.Allocate` | code/filesys/filehdr.cc:44-58 | Succeeds exactly when enough sectors are free; then takes the lowest ones in order, otherwise leaves the map alone |
| `FileHeaders.FileHeader.TakeSectors` | code/filesys/filehdr.cc:51-56 | The loop takes the n lowest free sectors; its ASSERT never fails |
| `FileHeaders.FileHeader.Deallocate` | code/filesys/filehdr.cc:68-74 | Clears exactly the file's sectors; the ASSERT holds when they are distinct and marked |
| `FileHeaders.FileHeader.FetchFrom` | code/filesys/filehdr.cc:84-87 | The fields are those laid out in the sector |
| `FileHeaders.FileHeader.WriteBack` | code/filesys/filehdr.cc:97-100 | The sector becomes the header's layout and no other changes |
| `OpenFiles.OverwriteContents` | code/filesys/openfile.cc:187-189 | Writing whole sectors from a buffer that agrees with the wanted bytes wherever the file has any makes the file the wanted bytes |
| `OpenFiles.SpliceReads` | code/filesys/openfile.cc:125-192 | What was written is read back, and a second write at the same place replaces the first |
| `OpenFiles.ClipExact` | code/filesys/openfile.cc:131-136 | The number of bytes moved is the largest, up to the number asked for, that fits between the position and the end of the file |
| `OpenFiles.SpliceExact` | code/filesys/openfile.cc:154-192 | Byte by byte, the file after a write |
| `OpenFiles.OpenFile.constructor` | code/filesys/openfile.cc:29-34 | The header is fetched and the position is 0 |
| `OpenFiles.OpenFile.ReadSectors` | code/filesys/openfile.cc:141-145 | The buffer holds the sectors' bytes end to end |
| `OpenFiles.OpenFile.ReadAt` | code/filesys/openfile.cc:125-151 | Returns exactly the clipped slice of the file, for every alignment; the rest of the buffer is unchanged |
| `OpenFiles.OpenFile.ReadEnds` | code/filesys/openfile.cc:171-181 | Every byte of the first and last sectors that the write leaves alone, and that the file has, is read in, for each alignment case |
| `OpenFiles.OpenFile.FillBuffer` | code/filesys/openfile.cc:171-184 | The buffer agrees with the wanted file wherever it lies inside the file |
| `OpenFiles.OpenFile.WriteSectors` | code/filesys/openfile.cc:187-189 | Exactly the sectors first to last of the file are overwritten |
| `OpenFiles.OpenFile.WriteAt` | code/filesys/openfile.cc:154-192 | The file becomes old[..pos] + data + old[pos+n..], n clipped at end of file, for every alignment; no sector outside the file's data changes, and none at all when n is 0 |
| `OpenFiles.OpenFile.Read` | code/filesys/openfile.cc:83-88 | Reads at the position and advances it by what was read; the rest of the buffer is unchanged |
| `OpenFiles.OpenFile.ReadOver` | code/filesys/openfile.cc:125-151 | A read from the start over bytes in memory replaces as many of them as the file has |
| `OpenFiles.OpenFile.Write` | code/filesys/openfile.cc:91-96 | Writes at the position and advances it by what was written |
| `OpenFiles.OpenFile.Seek` | code/filesys/openfile.cc:64-67 | Sets the position |
| `Directories.TableRoundTrip` | code/filesys/directory.cc:63-79 | A table written to its file and fetched again is the same table, byte layout and padding included |
| `Directories.TableBytes` | code/filesys/directory.cc:63-79 | Bytes fetched as a table and written back are the same bytes |
| `Directories.StoredName` | code/filesys/directory.cc:137-137 | A name stored by strncpy is found again by strncmp: they agree on the first nine characters |
| `Directories.KeyExact` | code/filesys/directory.cc:93-93 | Two names are the same to the directory if and only if there is no place among the first nine characters where they differ while all characters before are equal and not zero |
| `Directories.StrNCpyExact` | code/filesys/directory.cc:137-137 | Byte by byte, the stored name: the characters up to the end of the name, then zeros, and the tenth byte as it was |
| `Directories.FindIndex` | code/filesys/directory.cc:90-96 | The first live entry whose first nine characters match |
| `Directories.AddedLookup` | code/filesys/directory.cc:129-142 | After Add the name is found at its sector and every other lookup is as before |
| `Directories.RemovedLookup` | code/filesys/directory.cc:153-161 | After Remove the name is not found and every other lookup is as before |
| `Directories.AddKeepsUnique` | code/filesys/directory.cc:129-142 | Add keeps names unique up to nine characters |
| `Directories.RemoveKeepsUnique` | code/filesys/directory.cc:153-161 | Remove keeps names unique |
| `Directories.Directory.constructor` | code/filesys/directory.cc:37-43 | No entry is in use |
| `Directories.Directory.FetchFrom` | code/filesys/directory.cc:63-66 | As much as the file has replaces the first bytes of the table, whatever the two lengths; a file as long as the table gives exactly the table it encodes |
| `Directories.Directory.WriteBack` | code/filesys/directory.cc:76-79 | As much of the table as the file has room for replaces the file's first bytes; a file as long as the table then encodes it; no sector but the file's data changes |
| `Directories.Directory.Index` | code/filesys/directory.cc:90-96 | The index of the name, or -1 |
| `Directories.Directory.Find` | code/filesys/directory.cc:108-115 | The header sector of the name, or -1 |
| `Directories.Directory.Add` | code/filesys/directory.cc:129-142 | Succeeds exactly when the name is new and an entry is free; then fills the first free entry, otherwise changes nothing |
| `Directories.Directory.Remove` | code/filesys/directory.cc:153-161 | Succeeds exactly when the name is present; then frees its entry, otherwise changes nothing |
| `FileSystems.FormatOk` | code/filesys/filesys.cc:84-127 | A formatted disk satisfies the ownership invariant |
| `FileSystems.CreateKeeps` | code/filesys/filesys.cc:224-263 | After a successful Create the free map on disk is again exactly the disjoint union of the system headers, the system files' data and every listed file's header and data sectors, and names are unique |
| `FileSystems.CreateKeepsFiles` | code/filesys/filesys.cc:224-263 | Create changes no existing file, header or entry |
| `FileSystems.RemoveKeeps` | code/filesys/filesys.cc:324-353 | Remove keeps the ownership invariant |
| `FileSystems.RemoveKeepsFiles` | code/filesys/filesys.cc:324-353 | Remove changes no other file or header |
| `FileSystems.RemoveUndoesCreate` | code/filesys/filesys.cc:224-353 | Create and then Remove restores the exact free set, every name lookup and every other file |
| `FileSystems.WriteKeeps` | code/filesys/openfile.cc:154-192 | Writing one file changes no other file, no header, not the free map and not the directory |
| `FileSystems.DataOnly` | code/filesys/openfile.cc:154-192 | A change of sectors that hold no header and no system data, through whatever handle, keeps the invariant, the free map, the directory and every header |
| `FileSystems.OwnData` | code/filesys/filesys.cc:224-353 | The data sectors of a listed file hold no header and no system data, and are no other listed file's |
| `FileSystems.HandlesStayOk` | code/filesys/filesys.cc:224-353 | If the system files keep their sectors, as they do in every operation, a well-formed handle that names none of them still names none |
| `FileSystems.StepKeeps` | code/filesys/filesys.cc:224-353 | Create, Remove and Open, successful or not, and a write through any handle ever opened, its file removed or not, keep the invariant and all handles off the system's sectors, as long as no listed header is among the sectors of a handle written through |
| `FileSystems.RunKeeps` | code/filesys/filesys.cc:81-353 | The same after every run of these operations |
| `FileSystems.StepsAre` | code/filesys/filesys.cc:224-353 | The steps of a run are exactly what Create, Remove, Open and writes through handles do, successful or not |
| `FileSystems.PartitionAdds` | code/filesys/filesys.cc:224-263 | Giving free sectors to an owner that had none keeps the disjoint union exact |
| `FileSystems.PartitionRemoves` | code/filesys/filesys.cc:324-353 | Clearing one owner's sectors keeps the disjoint union exact |
| `FileSystems.FileSystem.Format` | code/filesys/filesys.cc:84-138 | Formatting any disk yields the invariant and an empty directory; its ASSERTs hold |
| `FileSystems.FileSystem.WriteHeaders` | code/filesys/filesys.cc:87-110 | Both allocations succeed and the two headers describe the sectors taken |
| `FileSystems.FileSystem.FirstFlush` | code/filesys/filesys.cc:126-127 | Writing the free map and the directory through their own files establishes the invariant |
| `FileSystems.FileSystem.Create` | code/filesys/filesys.cc:224-263 | Succeeds if and only if the name is new, an entry is free and 1 + ceil(size/128) sectors are free; on failure the disk is unchanged; on success the lowest free sectors, the first free entry and a matching header are used, and the invariant holds |
| `FileSystems.FileSystem.FlushNew` | code/filesys/filesys.cc:252-256 | The three writes of Create leave the specified disk |
| `FileSystems.FileSystem.Remove` | code/filesys/filesys.cc:324-353 | Succeeds if and only if the name is present; then exactly its sectors are freed and its entry cleared; its ASSERTs hold |
| `FileSystems.FileSystem.FlushRemoved` | code/filesys/filesys.cc:347-348 | The two writes of Remove leave the specified disk |
| `FileSystems.FileSystem.Open` | code/filesys/filesys.cc:276-289 | A file object with the header that the directory names, or null exactly when the name is absent |
| `FileSystems.FileSystem.WriteFile` | code/filesys/openfile.cc:154-192 | A write through an open file of a listed name splices that file, keeps the invariant and leaves every other file, the free map and the directory as they were |
| `FileSystems.FileSystem.WriteHandle` | code/filesys/openfile.cc:154-192 | A write through any handle, stale or not, splices what its header describes and changes no other sector; the file system stays in order if no listed header is among the handle's sectors |
| `Handles.CreateKeepsOpen` | code/filesys/filesys.cc:224-263 | The header kept by an open file is still that of its name after any other file is created |
| `Handles.RemoveKeepsOpen` | code/filesys/filesys.cc:324-353 | And after any file of another name is removed |
| `Handles.RemoveMakesStale` | code/filesys/filesys.cc:324-353 | After its own file is removed, a handle is no longer that of its name |
| `Handles.StaleAliases` | code/filesys/openfile.cc:29-34 | Create a, remove a, create b of the same size: from any disk in order, the handle of a then shows the contents of b, now and after any later change |
| `Handles.StaleWriteHitsOther` | code/filesys/openfile.cc:154-192 | So a write through the handle of a that changes what it shows changes b: the promise that other files stay the same fails for stale handles |
| `Handles.ChangesSafe` | code/filesys/filesys.cc:224-353 | On a disk in order, for any set of sectors outside the system's: every change of them keeps the disk in order if and only if none is the header of a listed file |
| `Handles.WritesSafe` | code/filesys/openfile.cc:154-192 | For any handle: every write through it keeps the disk in order if and only if no listed header is among its sectors; otherwise a write of one byte breaks it |
| `Handles.ChangesKeepOthers` | code/filesys/filesys.cc:224-353 | For any set of sectors and any file: every change of them leaves all other listed files the same if and only if none is a header or data sector of another listed file |
| `Handles.WritesKeepOthers` | code/filesys/openfile.cc:154-192 | For any handle: every write through it leaves all other listed files the same if and only if it names no sector of theirs; otherwise a write of one byte changes one |
| `Handles.PokeIsWrite` | code/filesys/openfile.cc:154-192 | A change of the first byte of any sector a handle names is what a one-byte write through it leaves |
| `Handles.SpoilBreaks` | code/filesys/filehdr.cc:84-87 | One wrong byte in the header of a listed file breaks the ownership invariant |
| `Handles.StaleHitsHeader` | code/filesys/openfile.cc:29-34 | Create a, remove a, create b empty and then c: the header of c lies in the first data sector of the handle of a, for every positive size, and a write of one byte at position 0 through that handle breaks the ownership invariant |
| `Handles.RunExact` | code/filesys/filesys.cc:81-353 | In every state of every run whose writes met no listed header so far, for every handle ever opened: all writes through it keep the disk in order if and only if no listed header is among its sectors at that time |
| `Handles.HandleStaysOpen` | code/filesys/openfile.cc:29-34 | Over every such run, a handle is still that of the name it was opened on as long as the name was not removed |
| `Handles.DisciplinedRun` | code/filesys/filesys.cc:81-353 | Programs that do not write through a handle once its name has been removed never break the ownership invariant, and none of their writes meets a listed header |
| `Handles.DisciplinedWrite` | code/filesys/openfile.cc:154-192 | Each write of such a program splices the file of the handle's name and changes no other listed file |
| `HashTables.PlacedAdds` | code/lib/hash.cc:110-124 | Appending a new item to its bucket keeps the buckets equal to the map with the item added |
| `HashTables.PlacedRemoves` | code/lib/hash.cc:210-223 | Taking an item from its bucket keeps the buckets equal to the map without its key |
| `HashTables.RatioTest` | code/lib/hash.cc:116-118 | The resizing test holds exactly when there are three items to a bucket |
| `HashTables.FlattenFrom` | code/lib/hash.cc:332-360 | The buckets laid end to end hold every item of the map exactly once |
| `HashTables.HashTable.constructor` | code/lib/hash.cc:29-35 | The map is empty, in the initial number of buckets |
| `HashTables.SlotExact` | code/lib/hash.cc:84-96 | The bucket of a key is the remainder of its hash value by the number of buckets |
| `HashTables.HashTable.FindInBucket` | code/lib/hash.cc:168-181 | An item with the key, or none has it |
| `HashTables.HashTable.Find` | code/lib/hash.cc:193-198 | Lookup in the map |
| `HashTables.HashTable.Insert` | code/lib/hash.cc:110-124 | The map gains the item; the table grows to four times its size if and only if there were three items to a bucket; every item stays in bucket hash(key) mod size |
| `HashTables.HashTable.Remove` | code/lib/hash.cc:210-223 | The map loses the key, and its item is returned |
| `HashTables.HashTable.ReHash` | code/lib/hash.cc:136-153 | Four times the buckets, the same map, every item in its new bucket |
| `HashTables.HashTable.MoveBucket` | code/lib/hash.cc:146-149 | A whole old bucket is moved, nothing lost or doubled |
| `HashTables.HashTable.MoveFront` | code/lib/hash.cc:147-148 | One item is moved from the front of an old bucket to its new one |
| `HashTables.HashTable.SanityCheck` | code/lib/hash.cc:272-288 | Every check passes on any table so built: each item hashes to its bucket and the buckets hold numItems items |
| `HashTables.HashTable.FindNextFullBucket` | code/lib/hash.cc:251-259 | The next non-empty bucket |
| `HashTables.HashIterator.constructor` | code/lib/hash.cc:332-340 | Everything is still to come |
| `HashTables.HashIterator.Next` | code/lib/hash.cc:349-360 | Exactly the current item is behind |
| `HashTables.HashIterator.Item` | code/lib/hash.h:110-110 | The first of the items to come |
| `HashTables.VisitAll` | code/lib/hash.cc:332-360 | Stepping to the end meets every item exactly once |
| `DiskTiming.NextSlot` | code/machine/disk.cc:200-206 | ModuloDiff is the number of slots to the first one with the sector under the head |
| `DiskTiming.SettledIsBoundary` | code/machine/disk.cc:177-191 | Seek and rounding end at the first slot boundary not before the seek ends |
| `DiskTiming.HitExact` | code/machine/disk.cc:237-243 | The track buffer hits exactly when a whole slot with the sector under the head lies between bufferInit and the current time rounded up |
| `DiskTiming.MissExact` | code/machine/disk.cc:246-249 | A miss completes at the end of the earliest slot, from when the head settles, that the sector is under |
| `DiskTiming.SeekExact` | code/machine/disk.cc:177-191 | The head moves one track in 500 ticks |
| `DiskTiming.LatencyExact` | code/machine/disk.cc:230-250 | A read from the current track of a sector that has gone by since the buffer started takes one slot; any other request is done at the end of the first slot, from when the head is there, that has the sector |
| `DiskTiming.BufferExact` | code/machine/disk.cc:259-268 | After a change of track the buffer starts at the first slot boundary at which the head is there |
| `DiskTiming.RequestExact` | code/machine/disk.cc:114-151 | A request makes the device active with the head at its sector, and the interrupt due at that time |
| `DiskTiming.OtherEvents` | code/machine/disk.cc:159-163 | Waiting lets time pass, and the interrupt makes the device idle |
| `DiskTiming.LatencyBounds` | code/machine/disk.cc:230-250 | Latency is between 500 and 31999 ticks, and covers the seek |
| `DiskTiming.StepKeeps` | code/machine/disk.cc:114-163 | Requests, interrupts and the passing of time keep: bufferInit is a slot boundary not later than the next request, and every request since then was for the current track |
| `DiskTiming.Run` | code/machine/disk.cc:114-268 | That holds after any sequence of events |
| `DiskTiming.RequestSound` | code/machine/disk.cc:114-268 | In every reachable idle state: those facts, the latency bounds, and a hit only for a sector of the current track that has passed in a whole slot since the buffer started |
| `DiskTiming.Disk.TimeToSeek` | code/machine/disk.cc:177-191 | Seek time and the rest of the current slot |
| `DiskTiming.Disk.ComputeLatency` | code/machine/disk.cc:230-250 | The specified latency, hit or miss |
| `DiskTiming.Disk.UpdateLast` | code/machine/disk.cc:259-268 | The buffer starts again exactly when the head changes track |
| `DiskTiming.Disk.Request` | code/machine/disk.cc:114-151 | The device becomes active, with the specified latency and buffer start |
| `DiskTiming.Disk.CallBack` | code/machine/disk.cc:159-163 | The device becomes idle and keeps its position |

## Left out

- Consoles, the network, sockets, the host file system and the `FILESYS_STUB` classes: wrappers over the host.
- System calls and the exception handler: in `Mips` the handler is a parameter, any function that returns with no load in progress.
- The socket and open-file tables of the file system, `List`, `Print`, `DumpState`, `SelfTest` and the debugger.
- Stack allocation, fenceposts and `SWITCH`: a context switch is an atomic change of the current thread.
- Liveness of `Sleep`'s idle loop and fairness: timer interrupts recur forever; the models prove instead that some thread can move.
- Overflow of 32-bit tick counts, sizes and list lengths outside the processor model.
- Big-endian hosts: `WordToHost` and its relatives are the identity.
- SynchList.StepKeeps: the object is a step system, not a class, because its claims are about interleavings; items are values, so the contents they point to are not modelled.
- SynchDisk.StepKeeps: a step system for the same reason; the sector's data is not in this model but in `Disks.Disk`, where a transfer is one step.
- Threads.StepKeeps: saving and restoring of user registers at a switch is not modelled; an interrupt handler is modelled as any number of Vs.
- SynchObjects.Semaphore.TestP: one pass of the loop of P; the sleep between passes is in the step systems.
- SynchObjects.Lock.TestAcquire: one pass of Acquire, for the same reason.
- SynchObjects.Condition.Enter: Wait up to its sleep; the rest is in `SynchList`.
- Interrupts.Interrupt.CheckDue: the handler is a parameter that says what it schedules and whether it wants a switch; the finishing of a delayed load is in `Mips`, and nested ticks inside a handler are not modelled.
- Interrupts.Interrupt.Tick: the call of Yield is reported to the caller, not made.
- Machines.Machine.RaiseException: ends where the handler is called; the handler and the changes of mode around it are not modelled.
- Machines.Machine.constructor: the null page table of the source is an empty one; single-step mode and the check of the host's byte order are not modelled.
- Machines.Machine.Execute: the bodies of the switch are expressions on the operands, shared with the specification; fetch, memory, table, write-back, delayed load and program counters are updated in place.
- Machines.Machine.OneInstruction: ends where the exception handler is called; dividing the most negative word by -1 wraps, where the host's division is undefined.
- Hazards.ReadHazard: single operands of instructions whose result determines them; `Hazards.HazardExact` is for all instructions.
- Programs.QuotientMoves: the most negative word divided by -1 is excluded, as the host's division is undefined there.
- Mips.DelayedRefines: an interrupt finishes the load in progress and otherwise leaves the interrupted program's registers and memory alone.
- Unaligned.StorePair: the instructions are executed from a state with the instruction already fetched; a fetch between them changes only use bits.
- VirtualMemory.TranslateInjective: states single bytes; wider accesses follow by `VirtualMemory.Consecutive`.
- OpenFiles.OpenFile.WriteAt: the data is a sequence, so a buffer that aliases the disk is not modelled; the file's data sectors are distinct, which `FileSystems.Ok` guarantees.
- FileSystems.RunKeeps: what happens to a disk after a write has met a listed header is not followed further; `Handles.RunExact` shows that some such write breaks it.
- FileSystems.FileSystem.WriteFile: the handle is that of a listed file; `FileSystems.FileSystem.WriteHandle` takes any handle.
- FileSystems.FileSystem.Format: only the format branch; opening an existing disk just opens the two files.
- HashTables.HashTable.FindInBucket: returns the item's position in its bucket in place of a pointer to it; buckets are the sequences that `LinkedList` shows lists to be, and growing does not free the old ones.
- HashTables.HashTable.Insert: the ASSERT that the key is new is the precondition.
- HashTables.HashTable.SanityCheck: buckets are sequences, so the check of each bucket's own links is not called; `LinkedList.List.SanityCheck` has it.
- DiskTiming.Disk.Request: state and timing only; the transfer itself is in `Disks.Disk`.
- Concurrent use of the file system: the source says that it assumes none.

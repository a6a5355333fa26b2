# Kernel runtime proofs

This project models four parts of the kernel and proves what they guarantee:

- the 16-byte-unit block manager behind the kernel heap (`lib/cruntime/hmblk.c`);
- the integer converters and the bounded formatter of the C runtime (`lib/cruntime/intformat.c`, `lib/cruntime/sprintf.c`);
- event objects shared by signallers and handlers (`src/nos/event.c`);
- the busy-wait `Stall` (`src/nos/time.c`).

## How it is built

| file | what it holds |
|---|---|
| `Words`, `BucketIndex` | bitmaps and why the two-level reverse scan finds the greatest bucket in use |
| `FreeLists`, `Requests` | the block manager on values: 256 queues of addresses and the lazy cursor; what a request is answered, case by case |
| `HeaderChains` | the `Next`/`PrevOrLast` links in memory against those queues |
| `HeapImage` | the `HMIMAGE` class: the operations as they update headers, heads, bitmaps and cursor in place |
| `HeapRuns`, `HeapTheorems` | every run of initialise, allocate, look up and insert; the main results |
| `HeapPages` | over runs: which blocks cut from pages stay clear of everything else |
| `HeapInserts` | which received memory makes every lookup of a run safe |
| `HeapHeaders` | over runs: which headers lie outside received memory, and that none lies in callers' data |
| `HeapDriver` | runs performed on a real image, with callers writing their data in between |
| `Numerals`, `IntFormat` | numerals, their order and round trip; `_itoa` and `_ui64toa` filling a buffer |
| `FormatSpec`, `Sprintf`, `FormatTheorems`, `FormatMeaning` | the reference rendering; `vsprintf_s` in place; how the two relate; what each directive prints |
| `Options`, `Lanes`, `EventSignals`, `EventMutex`, `EventCalls` | one shared append list; one event object; signallers that exclude each other; whole calls of signallers and registrants |
| `EventObjects`, `EventAnswers` | get-or-create of event objects; whole calls, up to their answer |
| `StallTimer` | the deadline and the polling loop against a moving clock |

The block manager is done three times over. `FreeLists` says what each operation does to the queues. `HeapImage`
performs it on links, heads and bitmaps and is proved equal to it, step by step. `HeapRuns` carries the geometry
and the totals through every run. The converters and the formatter are methods on the caller's buffer, proved
against numerals and a rendering that know no buffer. The event code is a state machine whose turns are single
shared accesses, in any interleaving of any number of threads.

`Middle`, `Inv`, `Linked` and the like are the invariants; `hide` in a proof only narrows what the verifier looks at.

## What the code does that its shape would not suggest

Each of these is proved, with the condition under which it happens.

- The remainder of fresh pages is filed at the unit after their first, so it overlaps the block just returned exactly
  when that block has more than one unit. No other offset than the block's length would be both inside the pages and
  clear of it (`OnlyOneRemainderOffset`). At any time of any run a block cut from pages is clear of all free and carved
  blocks exactly when it takes one unit or whole pages (`PagedBlockIsClearIff`); if all do, no two blocks handed out
  overlap (`BlocksHandedOutAreDisjoint`). After initialisation, the second small allocation overlaps the first exactly
  when the first asked for at least one unit (`SecondAllocationOverlapsFirst`). Free blocks stay disjoint from each
  other all the same, and so do the blocks carved from the cursor.
- An exact fit leaves a zero-length block, which the next lookup files at the unit after the block used up. If another
  free block begins there, one address is in two lists: in every state, a lookup keeps the invariant exactly when what
  is left under the cursor does not begin where another free block does, and only an exact fit can break that
  (`LookupKeepsInv`, `RefilingIsDistinctIff`; `ExactFitBeforeNeighbour` is an instance). A run goes on while its lookups
  meet this condition. They always do if no block is inserted (`PageSequencesAreRuns`), or if all memory received keeps
  the places where free blocks may begin and end apart (`ClearSequencesAreRuns`).
- The header of that zero-length block need not lie in memory the manager received. At any time of any run, the header
  that the next lookup writes at the cursor lies in received memory exactly unless the block under the cursor is used
  up, received memory ends with it, and no other begins there (`RefiledHeaderIsOwnedIff`). Three operations on one page
  are enough to put a header at the first unit after it (`HeaderMayStray`). Headers of blocks with a unit of their own
  always lie inside (`FiledHeadersAreOwned`).
- `oHmbRemove` of a block in the middle of its list leaves the successor's back link stale, and only then are the lists
  not well formed (`Remove`). A lookup only ever removes heads (`Refile`).
- The round-up to whole pages wraps exactly for requests above 2^64 - 256 units; no page is asked for then, and excess
  is filed all the same (`RoundUpWraps`). The kernel's caller asks for at most 2^60 (`src/nos/mm/heap.c:17`).
- `_itoa` in decimal writes only the sign and the last cell of a negative number, the latter from a negative
  remainder. It shows the numeral exactly when the number ends in 0 and the cells between already held its digits
  (`NegativeDecimalIsRightOnlyByChance`). A formatted text owes nothing to the old buffer exactly when no printed int is
  below -9 (`RenderingIsText`).
- `_ui64toa` in binary aligns bit 31 of its 64 bits, and so prints the numeral of no value but 0
  (`Ui64BinaryIsRightIff`). Both binary converters return, for 0 only, a pointer to the digit instead of the NUL.
- `vsprintf_s` checks the room before a number, not for it. Its text stays within `sizeOfBuffer - 1` characters exactly
  when the whole rendering does or the room ends between two of its pieces, a number being one piece
  (`OutputStaysInsideIff`). Otherwise it runs over, by up to nineteen characters (`OutputLength`, met by
  `OvershootHappens`). An unknown directive prints its `%` and is read on as text.
- The `Previous` pointer of an event is sampled outside the spinlock, and still is always the event's predecessor
  (`PreviousIsPredecessor`): signallers of one event exclude each other, because `KeSignalEvent` holds the mutex
  `PreventDelete` from `src/nos/event.c:202` to 244, and a caller that names no thread waits for it like any other
  (`src/nos/lock/mutex.c:13-22`). The comment at `src/nos/event.c:201`, that any thread can enter, is not what the code
  does. If it were, previous pointers could go stale, in the ways that `PreviousMayBeStale` and `PreviousMayLagBehind`
  show. What else is proved of events does not need the mutex, except the next point.
- A signal is skipped for a handler exactly while a registering thread is still walking the events for it
  (`SkippedIffRegistrantWalks`), never because of another signaller.
- The ids that an enumeration would show are all different exactly unless a new event object is waiting for its id
  while an event of id 0 exists (`RawIdsRepeatWhileNaming`; `NamingMayShowZeroTwice` gives a run). Only the spinlock
  hides it.
- `Stall` may return early by `(us mod 10^6)(frequency mod 10^6)` millionths of a count, and by no more, unless the
  counter has wrapped before it is read and the tick is still pending; then it may be early by a second more, exactly
  what the tick counter is behind (`PendingTicks`). If another processor takes a tick between the readings of the
  counter and of the tick counter, it is a second late. Below one megahertz it is late instead, by
  `(us mod 10^6)(10^6 - frequency)` millionths, and one subtraction does not always normalise its deadline
  (`OneSubtractionNormalises`).

## Assumptions

- Addresses count 16-byte units and stay below 2^52, so that byte addresses fit the 56-bit fields.
- The page source returns fresh pages or NULL. Nobody but the manager writes block headers, not even those that lie
  outside received memory; callers write data units of blocks carved from the cursor and of blocks that take whole
  pages. One image is used by one thread at a time.
- Where a lookup writes a header, inside received memory or not, memory has a unit for it. `PageSequencesAreRuns` and
  `ClearSequencesAreRuns` ask that memory goes on for a unit after all that is received.
- Spinlocks, mutexes, the test-and-set of the `Running` bit and single pointer accesses are atomic. Memory of new
  objects and handlers is zero; creating objects, handlers and events succeeds; a created object is seen by the next
  enumeration.
- Format strings and string arguments are NUL-terminated, arguments match their directives, every `l` is followed by
  a character, and the buffer holds what is written into it.
- A run's lookups can refile, as said above, inserted blocks are neither filed nor received before, and requests and
  their round-up fit in 64 bits. The operations on the image are proved without the last of these.
- `Stall` has a registered counter, its frequency is at most 2^63, and the stop second fits in 64 bits. It reads the
  counter with interrupts disabled on its own processor; the tick counter it reads next may be behind that time or, by
  a tick taken on another processor, ahead. The clock may move on between all other reads, and the tick counter may lag
  behind at any of them.

## Model

| member | source | states |
|---|---|---|
| HeapImage.Image.Init | lib/cruntime/hmblk.c:33-41 | a new image represents empty queues with every cursor field zero |
| HeapImage.Image.Set | lib/cruntime/hmblk.c:197-214 | the block joins its bucket as the last, no other bucket changes; links, heads and both bitmap levels again agree with the queues |
| HeapImage.Image.Remove | lib/cruntime/hmblk.c:216-243 | any entry of a bucket leaves it, those behind move up, no other bucket changes; the lists stay well formed if and only if it was not a middle entry |
| HeapImage.Image.SetThenRemove | lib/cruntime/hmblk.c:197-243 | linking a fresh block and unlinking it restores queues, heads, both bitmap levels and every other header, from any valid state |
| HeapImage.Image.Refile | lib/cruntime/hmblk.c:179-183 | the remainder under the cursor replaces the block it was carved from, by removing a head; no header but filed ones and the cursor's is written |
| HeapImage.Image.ScanBitmaps | lib/cruntime/hmblk.c:184-188 | the two reverse bit scans find what a linear search for the greatest bucket in use finds, or nothing when it finds nothing |
| HeapImage.Image.Lookup | lib/cruntime/hmblk.c:176-195 | the image in memory does what the lookup does to queues and cursor: it takes the oldest block of the greatest bucket in use after refiling, and fails exactly when none is |
| HeapImage.Image.TakePages | lib/cruntime/hmblk.c:66-73 | asks for the rounded-up pages, wrapped or not, and files exactly the excess, at the unit after their first |
| HeapImage.Image.Allocate | lib/cruntime/hmblk.c:48-82 | for any 64-bit length, block, pages asked for and new state are those of the allocation on queues, and answer the request case by case: from the cursor if it has enough, else from the oldest block of the greatest bucket after refiling if that has, else from pages; the header is stamped; only filed headers, the cursor's, the remainder's and the block's own are written |
| Requests.AllocationAnswers | lib/cruntime/hmblk.c:55-73 | pointer, pages asked for, queues and cursor after any request, in terms of the cursor's length, the greatest bucket after refiling and the page rounding |
| Requests.RefiledQueues | lib/cruntime/hmblk.c:179-183 | refiling drops the head that was carved from and appends the remainder to the bucket of its length; nothing else changes |
| FreeLists.LookupKeepsInv | lib/cruntime/hmblk.c:176-195 | in every state a lookup keeps free blocks apart, addresses distinct and the cursor on its head entry if and only if the remainder begins where no other free block does; a failing one changes nothing |
| FreeLists.RefilingIsDistinctIff | lib/cruntime/hmblk.c:179-183 | refiling files an address twice if and only if another free block begins at the remainder, which can only be after an exact fit |
| FreeLists.RefiledKeepsSeparate | lib/cruntime/hmblk.c:179-183 | the block refiled is the head of bucket `InitialLength`, and filing the remainder keeps all free blocks disjoint |
| BucketIndex.ScanIsGreatest | lib/cruntime/hmblk.c:184-188 | for any agreeing bitmaps the highest bit of the highest non-zero word is the greatest non-empty bucket |
| BucketIndex.IndexIsUnique | lib/cruntime/hmblk.c:197-232 | queues determine both bitmap levels |
| HeaderChains.AppendKeepsLinked | lib/cruntime/hmblk.c:197-214 | appending keeps every list well formed: head holds the tail, others their predecessor, the tail no next |
| HeaderChains.NoSecondFiling | lib/cruntime/hmblk.c:197-214 | a block filed twice stands for no well-formed lists, whatever the headers hold |
| HeaderChains.RemoveKeepsLinked | lib/cruntime/hmblk.c:216-243 | unlinking keeps every list well formed if and only if the block was not in the middle |
| HeaderChains.RemoveKeepsEntry | lib/cruntime/hmblk.c:216-243 | after unlinking, every link of every remaining block is right but the successor's back link after a middle removal |
| HeaderChains.AppendThenRemove | lib/cruntime/hmblk.c:197-243 | the writes of a link and an unlink of the same fresh block cancel on every other header |
| HeaderChains.WritesKeepLinkedIff | lib/cruntime/hmblk.c:197-243 | the lists stay well formed whatever a unit is overwritten with if and only if it is no filed header |
| HeapRuns.RunsKeepWorldInv | lib/cruntime/hmblk.c:33-82 | every run keeps the whole invariant: free blocks apart and all their units in received memory, adjacent or not, cursor on its head entry, carved blocks clear of all that is free, totals balanced |
| HeapRuns.PreparedKeepsTotals | lib/cruntime/hmblk.c:176-195 | refiling neither makes nor loses units or blocks |
| HeapTheorems.CarvedBlocksNeverOverlap | lib/cruntime/hmblk.c:55-60 | over any run no two blocks carved from the cursor overlap and each lies in received memory; blocks cut from pages begin their own pages and do not overlap each other |
| HeapTheorems.RegionsWereReceived | lib/cruntime/hmblk.c:66-73 | a region is recorded if and only if the source handed out its pages or a caller inserted its block |
| HeapTheorems.BlocksWereReturned | lib/cruntime/hmblk.c:55-81 | a block is recorded as carved or as cut from pages if and only if an allocation of the run returned its pointer, so obtained, for its size |
| HeapTheorems.TotalsAreSums | lib/cruntime/hmblk.c:52-73 | units charged are the sizes of the blocks returned, and pages and inserted units the sizes of the memory received |
| HeapTheorems.UnitsAreConserved | lib/cruntime/hmblk.c:52-73 | 256 units a page plus inserted units equal units charged plus filed lengths less what the cursor carved off; `CurrentLength` stays within `InitialLength`, below 256 |
| HeapTheorems.LookupFailsOnlyIfNothingWasFiled | lib/cruntime/hmblk.c:184-185 | in any run a lookup fails if and only if no block was ever filed |
| HeapTheorems.PagesAreTheLastResort | lib/cruntime/hmblk.c:55-66 | below 256 units the page source is asked if and only if the cursor's remainder and every free block after refiling are too short, and then for one page |
| HeapTheorems.FreeUnitsAreRefiled | lib/cruntime/hmblk.c:179-183 | the free units are those of the blocks filed once the cursor is refiled |
| HeapTheorems.FailedAllocationKeepsFreeUnits | lib/cruntime/hmblk.c:55-68 | an allocation that returns NULL keeps the totals and the set of free units, and the invariant if and only if its lookup could refile |
| HeapHeaders.RefiledHeaderIsOwnedIff | lib/cruntime/hmblk.c:179-183 | at any time of any run the header the next lookup writes at the cursor lies in received memory if and only if something is left under the cursor, or received memory does not end there, or more begins there |
| HeapHeaders.FiledHeadersAreOwned | lib/cruntime/hmblk.c:197-214 | in any run the header of every filed block of at least one unit lies in received memory |
| HeapHeaders.HeaderMayStray | lib/cruntime/hmblk.c:48-82 | a run of two allocations and a lookup after which a header stands at the first unit after the pages, which no received memory holds |
| HeapHeaders.HeadersAvoidData | lib/cruntime/hmblk.c:55-81 | in any run, no header that an allocation, a lookup or an insertion may write is a data unit of a block carved from the cursor or taking whole pages, and no filed header is one |
| HeapTheorems.RoundUpWraps | inc/nosdef.h:29-31 | the round-up wraps if and only if the request exceeds 2^64 - 256, and then to no pages with excess left over; otherwise it is request plus excess, in whole pages |
| HeapTheorems.OnlyOneRemainderOffset | lib/cruntime/hmblk.c:69-73 | the remainder clears the returned block and stays in the pages at one offset only; at the offset used it overlaps if and only if the block has more than one unit |
| HeapTheorems.SecondAllocationOverlapsFirst | lib/cruntime/hmblk.c:48-82 | after initialisation the second of two small allocations overlaps the first if and only if the first asked for a unit or more |
| HeapTheorems.ExactFitBeforeNeighbour | lib/cruntime/hmblk.c:55-60 | an instance: two inserted blocks, the larger used up; the next lookup keeps addresses distinct if and only if the other does not begin where it ends |
| HeapPages.PagedBlockIsClearIff | lib/cruntime/hmblk.c:55-73 | at any time of any run a block cut from pages overlaps no free and no carved block if and only if it takes one unit or whole pages |
| HeapPages.BlocksHandedOutAreDisjoint | lib/cruntime/hmblk.c:48-82 | if all blocks cut from pages take one unit or whole pages, no two blocks handed out in a run overlap |
| HeapInserts.ClearSequencesAreRuns | lib/cruntime/hmblk.c:179-183 | if all memory received keeps its ends apart, every lookup of the sequence can refile |
| HeapInserts.PageSequencesAreRuns | lib/cruntime/hmblk.c:55-73 | over fresh pages alone, with nothing inserted, every lookup can refile |
| HeapDriver.Perform | lib/cruntime/hmblk.c:48-82 | any operation on a valid image leaves a valid image of the state the operation leaves, and writes only the headers named |
| HeapDriver.Turn | lib/cruntime/hmblk.c:48-82 | callers write anything into their data units and an operation follows: the image stays valid and stands for the next state, and no data unit changes but as written |
| HeapDriver.Execute | lib/cruntime/hmblk.c:33-82 | a whole run on a new image, with callers' writes before each operation and at the end, ends in a valid image of the run's last state |
| HeapDriver.DataIsWhatCallersWrote | lib/cruntime/hmblk.c:55-81 | in such a run a data unit of a block carved from the cursor or taking whole pages holds, at every later time, what was last written there, or what it held when handed out |
| Numerals.ParseText | lib/cruntime/intformat.c:96-140 | reading the digits of a numeral gives the number back |
| Numerals.NoLeadingZero | lib/cruntime/intformat.c:96-140 | a numeral begins with 0 if and only if the number is 0 |
| Numerals.TextOrder | lib/cruntime/intformat.c:96-140 | a is less than b if and only if its numeral is shorter, or as long and alphabetically before; equal numerals mean equal numbers |
| IntFormat.CountTens | lib/cruntime/intformat.c:103-107 | the decimal counting pass gives one less than the length of the numeral |
| IntFormat.FillTens | lib/cruntime/intformat.c:108-118 | the decimal filling pass writes exactly the numeral and the NUL; for a negative int only the last cell and the NUL |
| IntFormat.FillLeading | lib/cruntime/intformat.c:108-115 | the decimal filling loop writes all digits but the first, from the last backwards, and nothing for a negative int |
| IntFormat.CountHex | lib/cruntime/intformat.c:123-127 | the hexadecimal counting pass gives the length of the numeral |
| IntFormat.FillHex | lib/cruntime/intformat.c:45-55 | the hexadecimal filling pass writes the numeral of the bit pattern, the signed shift of a negative int notwithstanding |
| IntFormat.Normalise | lib/cruntime/intformat.c:66-71 | in 32 and in 64 bits the shift brings the highest of bits 0 to 31 to bit 31, losing none of them, and counts 32 less the length of their numeral; if all are zero it shifts everything out |
| IntFormat.EmitBits | lib/cruntime/intformat.c:72-81 | writes what testing bit 31 and shifting gives, and the NUL |
| IntFormat.EmittedNumeral | lib/cruntime/intformat.c:72-81 | what the loop emits of a number shifted up against bit 31 is its binary numeral, and zeros if the loop goes on |
| IntFormat.Itoa | lib/cruntime/intformat.c:11-85 | for every int and radix: the text written, the cells left alone and the pointer returned |
| IntFormat.Ui64toaBinary | lib/cruntime/intformat.c:141-165 | for every 64-bit value: the text written in binary, the NUL, nothing else, and the pointer returned |
| IntFormat.Ui64BinaryIsRightIff | lib/cruntime/intformat.c:141-165 | that text is the binary numeral if and only if the value is 0 |
| IntFormat.Ui64toa | lib/cruntime/intformat.c:95-168 | for every 64-bit value and radix: the text, the NUL, nothing else, and the pointer returned; in decimal and hexadecimal the numeral and the pointer to the NUL, NULL for an unknown radix |
| IntFormat.Ui64RoundTrip | lib/cruntime/intformat.c:96-140 | decimal and hexadecimal of any 64-bit value read back as it, without leading zeros |
| IntFormat.ItoaPatternRoundTrip | lib/cruntime/intformat.c:38-82 | hexadecimal and binary of any int, negatives included, read back as it modulo 2^32, with no leading zero but for 0 |
| IntFormat.NegativeDecimalIsRightOnlyByChance | lib/cruntime/intformat.c:13-37 | the decimal of a negative int shows its numeral if and only if it ends in 0 and the cells between held its digits already |
| Sprintf.SkipSelector | lib/cruntime/sprintf.c:21-27 | counts the non-letters before the operation |
| Sprintf.Convert | lib/cruntime/sprintf.c:29-78 | one conversion prints its pieces as far as there is room, and returns at once when none is left |
| Sprintf.Vsprintf | lib/cruntime/sprintf.c:7-110 | it terminates; the buffer shows the reference rendering cut at the size, then a NUL, and is as before beyond; -1 and no write for size 0 |
| FormatSpec.TakenIsPrefix | lib/cruntime/sprintf.c:17-107 | a cut rendering is a prefix of the whole, all of it when it fits, and fills the room when it does not |
| FormatTheorems.OutputIsPrefixOfReference | lib/cruntime/sprintf.c:13-109 | the output is a prefix of the reference rendering and equals it whenever that has at most `sizeOfBuffer - 1` characters |
| FormatTheorems.OutputLength | lib/cruntime/sprintf.c:4-78 | literals, characters and strings never pass `sizeOfBuffer - 1`; numbers pass it by at most nineteen |
| FormatSpec.TakenFitsIff | lib/cruntime/sprintf.c:17-107 | pieces begun while there is room stay within it if and only if all fit or the room ends between two of them |
| FormatTheorems.OutputStaysInsideIff | lib/cruntime/sprintf.c:4-107 | the text and its NUL stay inside `sizeOfBuffer` if and only if the whole rendering does or the room ends between two pieces |
| FormatTheorems.OvershootHappens | lib/cruntime/sprintf.c:59-67 | the bound of nineteen is met |
| FormatTheorems.RenderingIsText | lib/cruntime/sprintf.c:49-58 | the rendering does not depend on what the buffer held if and only if no printed int is below -9 |
| FormatMeaning.BufferHolds | lib/cruntime/sprintf.c:5-110 | a buffer that shows cells none of which is passed over holds exactly their characters |
| FormatMeaning.NumbersAreNumerals | lib/cruntime/sprintf.c:49-78 | `%u` of a 64-bit number and `%d` of an int that is not negative are one piece, the decimal numeral, `%x` and `%X` the hexadecimal one: it reads back as the number, in digits 0-9 and A-F, with no leading zero |
| FormatMeaning.NegativeNumbers | lib/cruntime/sprintf.c:49-58 | `%d` of a negative int is a sign, cells passed over, and a last character as far below 0 as its last digit is above |
| FormatMeaning.TextsAreCopied | lib/cruntime/sprintf.c:33-93 | `%c`, `%s` and `%a` print exactly their argument, `%ls` the low bytes of its units |
| FormatMeaning.ConversionIsRead | lib/cruntime/sprintf.c:18-78 | a `%`, any non-letters and one of c, s, a, d, u, x, X are that one conversion, and reading goes on behind it |
| FormatMeaning.LongIsRead | lib/cruntime/sprintf.c:79-94 | after an `l` one more character belongs to the directive |
| FormatMeaning.UnknownIsCopied | lib/cruntime/sprintf.c:95-98 | with any other letter, or none, the `%` is an ordinary character and reading goes on right behind it |
| FormatMeaning.LiteralIsRead | lib/cruntime/sprintf.c:100-106 | any other character than a `%` stands for itself |
| FormatMeaning.PlainFormat | lib/cruntime/sprintf.c:100-106 | a format without `%` takes no argument and renders as itself |
| FormatMeaning.ConversionRenders | lib/cruntime/sprintf.c:18-78 | rendering a conversion is printing its argument and then rendering the rest |
| FormatMeaning.LongRenders | lib/cruntime/sprintf.c:79-93 | so it is for `%ls` |
| FormatMeaning.OtherLongRenders | lib/cruntime/sprintf.c:79-94 | any other long directive prints nothing and takes no argument |
| Lanes.AccessKeepsLane | src/nos/event.c:209-235 | each shared access of any thread keeps the list, its lock and its last pointer in order |
| Lanes.ChainIsAppendOrder | src/nos/event.c:223-235 | following the next pointers gives the locked appends in order, ending at the last pointer unless an append is half done |
| Lanes.PreviousIsRightIff | src/nos/event.c:218-235 | a previous pointer names the predecessor if and only if the last pointer covered all nodes before it at the sample |
| Lanes.PreviousIsRightIffLastStood | src/nos/event.c:218-235 | when a node is linked its previous is right if and only if the last pointer stands where it stood at the sample |
| EventSignals.StepKeeps | src/nos/event.c:47-247 | one turn of any thread keeps both lists, the `Running` bits and what each thread knows |
| EventSignals.RunsKeepInv | src/nos/event.c:47-247 | so does every interleaving of any number of signallers and registrations |
| EventSignals.ChainsAreAppendOrder | src/nos/event.c:107-116 | at any time of any interleaving the chains of events and handlers are the locked appends in order |
| EventSignals.OrdersOnlyGrow | src/nos/event.c:223-235 | what was appended stays where it is |
| EventSignals.PreviousPointers | src/nos/event.c:102-116 | in every interleaving, with the mutex or without, an event's previous is what `LastEvent` was when sampled, right if and only if that covered all events before it; a handler's is always right |
| EventMutex.MutexRunsKeepInv | src/nos/event.c:202-244 | while a signaller enters only when no other is inside, at most one is inside, and every event was or is sampled with all before it covered |
| EventMutex.PreviousIsPredecessor | src/nos/event.c:202-244 | at any time of any run in which signallers exclude each other, the previous of every event is its predecessor |
| EventMutex.SkippedIffRegistrantWalks | src/nos/event.c:47-50 | in such a run a signaller at a handler's `Running` bit finds it set if and only if a registering thread walks the events for that handler |
| EventSignals.OneWalkerPerHandler | src/nos/event.c:47-62 | at most one thread walks the events for a handler, and its `Running` bit is set if and only if one does |
| EventSignals.WalksDeliverInOrder | src/nos/event.c:51-60 | a walk delivers events one by one in append order, and at its end has delivered all appended by then |
| EventCalls.TryTurn | src/nos/event.c:47-62 | a thread that finds a handler's bit clear sets it and walks; one that finds it set, while another thread walks for the handler, goes on to the next handler or is done |
| EventCalls.TryIsAnswered | src/nos/event.c:47-62 | whoever has tried a handler and is past it has skipped it, another thread walking for it, or has delivered, in order, all events appended when it read the end of them |
| EventCalls.SignallerTriesAll | src/nos/event.c:237-242 | a signaller tries the handlers in their order from the first; when it is past them it has tried all that were linked when it read the end of them |
| EventCalls.SignalTriesAllHandlers | src/nos/event.c:209-246 | a thread that signalled and is idle again has appended a new event of its own and then tried all those handlers |
| EventCalls.SignalRunsHandlers | src/nos/event.c:237-242 | each of these tries was skipped because another thread was walking, or delivered the events |
| EventCalls.RegistrationRunsHandler | src/nos/event.c:102-121 | a thread that registered and is idle again has linked a new handler and tried it: skipped because another thread was walking for it, or with all events delivered that were appended when it read the end |
| EventCalls.NobodyIsStuck | src/nos/event.c:209-244 | at any time any thread can take a turn, or waits for a spinlock whose holder can |
| EventObjects.RunsKeepInv | src/nos/event.c:64-191 | every interleaving of opens and registrations keeps the lock, the ids and what each thread knows |
| EventObjects.OneObjectPerId | src/nos/event.c:70-189 | whenever the spinlock is free no two event objects share an id |
| EventObjects.SameIdSameObject | src/nos/event.c:141-191 | calls for one id are answered with one object, at any times by any threads |
| EventObjects.AtMostOneRetry | src/nos/event.c:171-190 | an open calls itself at most once, and then finds the object before the enumeration ends |
| EventObjects.RawIdsRepeatWhileNaming | src/nos/event.c:172-187 | at any time of any interleaving two objects show one id if and only if a new one is waiting for its id while an event of id 0 exists |
| EventObjects.NamingMayShowZeroTwice | src/nos/event.c:84-98 | a run of one registering thread in which two objects show id 0 |
| EventObjects.OpeningMayCreate | src/nos/event.c:141-191 | a run of one thread that opens a new event, calls itself once and is answered |
| EventAnswers.CallGoesOn | src/nos/event.c:64-191 | from its call on a thread is calling for its id or has been answered; it is never idle again, and what it does fits whether it opens and has created the object |
| EventAnswers.AnswerBearsId | src/nos/event.c:153-190 | a call that returned was answered with an object that bears the id, after one recursive call if it opens and created the object, and after none otherwise |
| EventAnswers.TurnsBringNearer | src/nos/event.c:141-191 | every turn of its own brings a call nearer to its answer, and no turn of another thread takes it farther away |
| EventAnswers.NobodyIsStuck | src/nos/event.c:70-189 | a thread that is calling can take a turn, or waits for the spinlock whose holder can |
| StallTimer.Deadline | src/nos/time.c:87-93 | the deadline differs from the exact request by what counting whole counts a microsecond adds; when one subtraction normalises it; no step wraps |
| StallTimer.DeadlineIsEarlyBy | src/nos/time.c:87-93 | from one megahertz the deadline is early by exactly (us mod 10^6)(frequency mod 10^6) millionths of a count, none if and only if a factor is 0 |
| StallTimer.DeadlineIsLateBelowMegahertz | src/nos/time.c:87-93 | below one megahertz it is late by exactly (us mod 10^6)(10^6 - frequency) millionths of a count, not at all if and only if the request is in whole seconds |
| StallTimer.OneSubtractionNormalises | src/nos/time.c:89-93 | one subtraction normalises every request if and only if the frequency is a megahertz or the counter leaves room |
| StallTimer.Poll | src/nos/time.c:96-100 | against any clock that does not go back, and however far the tick counter lags at each read, the loop returns only after the deadline and in the first iteration begun past the stop second at the latest; where it does not lag, within one iteration of a passed deadline |
| StallTimer.PendingTicks | src/nos/time.c:71-75 | a reading with ticks pending, or with the tick counter ahead, shows a time exactly that many whole seconds off |
| StallTimer.Stall | src/nos/time.c:80-101 | it returns no earlier than requested but for the dropped millionths and a second for each tick pending at the reading, a second later for each tick the reading is ahead, however the tick counter lags afterwards; where it does not lag, at most one iteration after the first that begins with that time and the lateness below one megahertz passed; in any case in the first iteration that is shown a second past the request |

## Left out

- `oHmbFree` frees nothing, `printbmp` prints; the `Vmm` functions are declared only. Other allocators in comments are not modelled.
- What callers write into a block cut from pages that does not take whole pages: the remainder's header stands in it when it is filed, and lists do not survive every write to a filed header (`WritesKeepLinkedIff`).
- HeapImage.Image.Set: requires the block unfiled and in memory, which the code does not check; see `NoSecondFiling`.
- HeapImage.Image.Lookup: requires that the remainder can be refiled and has a unit for its header; what headers hold after an address is filed twice is not modelled.
- HeapImage.Image.Allocate: requires room for the remainder wherever it is filed and, for the one length whose increment wraps to 0, a block under the cursor; the code would write through NULL.
- HeapRuns.RunsKeepWorldInv: excludes requests whose round-up wraps, for which the excess lies outside the pages received.
- `PageLength`, `SrcFree` and the user header of the image: no modelled function uses them.
- `_ltoa`, `_ultoa` and `_i64toa` are stubs that return NULL.
- Sprintf.Vsprintf: requires the array to hold what is written, numbers that run over included (`OutputStaysInsideIff` says when `sizeOfBuffer` cells do), and every `l` to be followed by a character; the code reads past the format otherwise.
- `KeRemoveEvent`, which drops the whole list when it unlinks the head; `KeUnregisterEventHandler`, which is not implemented.
- That an event is delivered at least once: a signal is skipped for a handler whose `Running` bit is set, and the walk that set it may have read the end of the events already.
- That waiting threads are scheduled: calls are shown to go on and not to get stuck, not to end within a number of turns.
- The object manager, handles, the owner field of mutexes, pools, thread creation, `NumEvents` and failures of any of these.
- Event objects are modelled twice, finding or creating them by id and living on one of them, not in one machine; so registering enters the handlers list of an object already found.
- EventSignals.WalksDeliverInOrder: an event counts as delivered when its thread is created; what the handler does is not modelled.
- StallTimer.Poll: records three clock times an iteration, also when the third read is skipped because the second is not the stop second.
- `Sleep`, `KeGetTimeSinceBoot`, timer creation and selection, and the halt when no counter is registered.
- Console and debug output, boot, drivers and drawing: input and output.

# Receiptd: a verified model

Receiptd turns a list of receipt elements into printed paper: clients enqueue jobs,
a worker per printer claims them, a job's receipt is laid out, painted on a one-bit
canvas, encoded as ESC/POS bytes and sent. This project models the four parts of the
repository where correctness spans several functions, and proves properties of them
in Dafny. `dafny verify dfyconfig.toml` checks everything.

## What is modelled

**The print queue.** `Jobs`, `StoreSpec` and `Protocol` describe the queue as a state
machine: one durable store, any number of workers with a private copy of the job they
claimed, and steps for claiming, calling, sending a copy, persisting, backing off,
shutdown, a failed Save or claim (which may or may not have reached the disk), a crash
anywhere and startup reconciliation. `ProtocolInvariant` shows that every step keeps one
invariant, `ProtocolRuns` draws whole-run consequences (bounded attempts and sends,
exclusive ownership, no lost update, idempotency), `CancelRace` says when a cancellation
split into read and write is safe, `ClaimOrder` in which order jobs are served, `GivingUp`
that none is given up early, and `ProtocolTermination` bounds the writes of any run.
Every start may configure another `maxAttempts`; `budget` is any bound on them. The code
itself is modelled as methods over mutable state: `MemoryStores` over a map of mutable
records visited in arbitrary order, `BoltStores` over an ordered bucket, both against the
same specification; `Queues` for the retry loop and reconciliation. `RetryLoop` and `ReconcileRun` show that these methods are
paths of the protocol. `Delivery` is the printer's write loop and the copies loop.

**Canvas and bytes.** `Bitmaps`, `Glyphs` and `Images` are the packed-bit algorithms,
each specified by where every pixel of its result comes from. `Painting` paints
positioned blocks in place. `Escpos` holds the encoder and a small ESC/POS interpreter;
`EscposPaper` proves that the bytes mean the canvas's paper however it is chunked, and
`EscposLimits` exactly when they do. The interpreter reads four commands: ESC @
(initialize), ESC d (feed lines), GS v 0 (raster image with 16-bit little-endian sizes)
and GS V (cut), and refuses an image of more rows than the printer buffers.

**Layout.** `Wrap` is greedy word wrap, `ColumnLayout` and `TextLayout` are column
budgets, padding, tables, columns, alignment and lists, and `Layout` stacks the blocks.
`Tables` and `DocumentText` show that every row, column and element is there, once and in
order. `Extents` bounds where a block's dots can be, so that no two blocks share one and
none is clipped; it asks of the font only that no glyph exceeds its line and its advance.
`Pipeline` composes layout, painting and encoding for a validated receipt, and
`DocumentControls` follows its feeds and cuts from the elements to the paper.

**Codecs.** `Csv` is the table codec of the receipt builder (section 2 of RFC 4180 with
the code's trimming and blank-line rules) and `Builder` its wire conversions.
`CsvCanonical` says which texts the codec leaves alone, `CsvReading` what it makes of text
that people write. `ElementDecoder` is the depth-bounded recursive element decoder, and
`DecodeVerdict` says which trees it accepts.

## Where the code and its remarks differ

- `internal/render/canvas/style.go:12-15` says bold and italic commute on every glyph.
  They do not: on a row that leans left, an edge pixel dropped by the shear can matter.
  `Glyphs.StyleOrderIff` gives the exact condition on the glyph, and
  `Glyphs.StyleOrderCanMatter` a glyph of one dot that shows it.
- `web/static/builder.js:171-173` calls parsing and formatting exact inverses. Neither
  composition always is. Formatting and then parsing loses the rows without cells, and
  nothing else: `Csv.FormatThenParse`, `Builder.TableKeepsCells`; `Table.Validate` rules
  such rows out.
  Parsing and then formatting rewrites every text with a stray carriage return, a blank
  or trailing line, or a field quoted otherwise than it needs:
  `CsvCanonical.ParseThenFormatIff` says exactly which texts come back.
- `internal/render/layout/columns.go:70-75` and `internal/render/layout/table.go:54-59`
  say the widths and gaps always add up to the printable width. They do exactly when
  the page leaves a dot for each column besides the gaps, and exceed it otherwise:
  `ColumnLayout.WidthsFillPageIff`, `ColumnLayout.EvenWidthsFillPageIff`, and
  `ColumnLayout.NarrowPageOverflows` for a page that is too narrow.
- `internal/render/escpos/encode.go:168-172` keeps 16 bits of a row's bytes and of a
  band's rows. `EscposLimits.MeansPaperIff`: the bytes mean the paper exactly when both
  fit, the bands counted gap by gap between controls. On the catalogued printer, which
  takes images of any height, 70000 rows in one piece are misread and the same rows with
  one feed among them are not.
- `internal/queue/cancel.go:20-33` reads and writes in two store operations, and the
  write can overwrite what a worker saved in between. `CancelRace.StaleCancelSafeIff`:
  whatever runs in between, the write does what an atomic cancellation would exactly
  when the record is then Pending with the attempts and the error that were read; only a
  claim or another cancellation of that job can change it (`CancelRace.UntakenStaysAsRead`).
  The queue's invariant alone does not notice every loss: `CancelRace.InvMissesLostUpdate`
  is a run in which a printed, Done job becomes Cancelled with the invariant intact.
- A Send can fail after delivering everything, when a Write reports an error along with
  the last byte. `Delivery.SuccessIffAllCopies`: success and complete delivery coincide
  exactly unless that happens on the last copy.

## Model

| member | source | states |
|---|---|---|
| Receipts.EffectiveCopies | internal/receipt/receipt.go:46-54 | the number of copies is between 1 and 100, and is the requested number exactly when that is in range |
| Jobs.LessTransitive | internal/queue/store_memory.go:45-55 | the order jobs are listed in is transitive |
| Jobs.LessTotal | internal/queue/store_memory.go:45-55 | any two different job IDs are ordered |
| Jobs.LessAsymmetric | internal/queue/store_memory.go:45-55 | two IDs are never ordered both ways |
| Jobs.LessMeans | internal/queue/store_memory.go:45-55 | one ID comes before another exactly when it is a proper beginning of it or has the smaller character where they first differ |
| StoreSpec.ListingUnique | internal/queue/store_memory.go:45-55 | a store has exactly one ascending listing of its jobs, so every map iteration order lists alike |
| StoreSpec.NextUnique | internal/queue/store_memory.go:81-100 | at most one job is the least-ID pending one of a printer, so both stores claim the same job |
| StoreSpec.ResolveKeepsKeysSeparated | internal/queue/store_bolt.go:174-238 | an idempotent enqueue keeps any two jobs with one key more than the TTL apart, whatever order clocks are read in |
| StoreSpec.MatchUnique | internal/queue/store_bolt.go:244-263 | at a time no earlier than the creation times, at most one live job matches a key |
| StoreSpec.LookupAmbiguousIff | internal/queue/store_memory.go:149-156 | scan order can change the lookup's answer exactly when a matching job lies in the future of the clock and more than the TTL after another match |
| StoreSpec.StoresAgree | internal/queue/store_memory.go:105-143 | without jobs in the future, every scan order leads to the same store and the same result of an idempotent enqueue |
| StoreSpec.NewRequestGetsNewJob | internal/queue/store_bolt.go:174-238 | without a live job under its key a request becomes a new Pending job of its printer, receipt and key, created now, and no other job changes |
| ProtocolInvariant.StepKeepsInv | internal/queue/process.go:67-125 | every step of every worker, client, crash, failed Save and restart keeps the queue's invariant (calls within persisted attempts, attempts within budget, exclusive ownership, stored version is the one the worker wrote, keys separated) |
| ProtocolInvariant.BootOk | internal/queue/reconcile.go:18-33 | a listing taken at startup contains every orphaned job, as the store has it |
| ProtocolInvariant.ReconcileSaveOk | internal/queue/reconcile.go:30-49 | resolving one orphan keeps the invariant whether or not startup goes on |
| ProtocolInvariant.ClaimOk | internal/queue/store_bolt.go:138-169 | a claim gives a pending job to one worker and to no other |
| ProtocolInvariant.ClaimFailsOk | internal/queue/store_bolt.go:138-169 | a claim whose commit reports an error keeps the invariant, whether or not it reached the disk |
| ProtocolInvariant.SaveOk | internal/queue/process.go:108-112 | persisting an attempt overwrites exactly the version its worker last wrote |
| ProtocolInvariant.EnqueueIdempotentOk | internal/queue/store_bolt.go:174-238 | an idempotent enqueue keeps the invariant in each of its branches |
| ProtocolRuns.ReachableOk | cmd/receiptd/shutdown.go:38-63 | the invariant holds in every state any run of the daemon reaches from an empty store |
| ProtocolRuns.CallsPerActivation | internal/queue/process.go:82-125 | Process is called for a job at most maxAttempts times per activation, and at most 100 * maxAttempts sends are made, in every run with any crashes, restarts, failed Saves and shutdowns, maxAttempts being the largest the daemon was started with |
| ProtocolRuns.DoneWasDelivered | internal/app/process.go:53-58 | a job is recorded Done only when at least all its copies were sent in that activation |
| GivingUp.NeverGivenUpEarly | internal/queue/reconcile.go:35-48 | in every reachable store a Failed job carries the message of a call that failed, or was interrupted when its attempts had reached the budget |
| ProtocolRuns.OwnershipHolds | internal/queue/store_memory.go:81-100 | no two workers hold one job, and each worker's copy agrees with the store on ID, printer, receipt, key and creation time, the store holding the version it last wrote |
| ClaimOrder.PendingIsClaimable | internal/queue/store_memory.go:81-100 | a free worker can claim at once when its printer has a Pending job, whatever the other printers do, and gets one of that printer's |
| ClaimOrder.NoOvertaking | internal/queue/store_bolt.go:138-169 | in no run, crashes and restarts included, is a job claimed before a Pending one of its printer with a smaller ID has been claimed or cancelled |
| ProtocolRuns.NoLostUpdate | internal/queue/process.go:108-112 | through any run in which a worker neither writes nor gives up its job and nothing crashes, the store keeps exactly the version it last wrote |
| CancelRace.StaleCancelSafeIff | internal/queue/cancel.go:20-33 | after any run between the read and the write of a split cancellation, the write is the atomic cancellation exactly when the record is then Pending with the attempts and last error that were read |
| CancelRace.SafeCancelKeepsInv | internal/queue/cancel.go:20-33 | a safe write keeps the queue's invariant |
| CancelRace.UntakenStaysAsRead | internal/queue/cancel.go:20-33 | through any run without a claim or another cancellation of the job, restarts included, the Pending record stays as it was read |
| CancelRace.StaleCancelLosesClaim | internal/queue/cancel.go:20-33 | the smallest loss: one claim between read and write is overwritten |
| CancelRace.StaleCancelKeepsInvIff | internal/queue/cancel.go:20-33 | the write keeps the queue's invariant, which is less than being safe, exactly when then no worker holds the job and its calls are within the attempts that were read |
| CancelRace.InvMissesLostUpdate | internal/queue/cancel.go:20-33 | a run from the empty store after which the write turns a printed job from Done to Cancelled and the invariant still holds |
| ProtocolRuns.NoOrphanAfterReconcile | cmd/receiptd/shutdown.go:39-48 | when workers start, no job is Running |
| ProtocolRuns.IdentityKept | internal/queue/job.go:36-47 | an accepted job stays in the store with the same printer, receipt, key and creation time through any run |
| ProtocolRuns.OneLiveJobPerKey | internal/queue/store_bolt.go:174-263 | in every reachable store jobs sharing a key are more than the TTL apart, so at most one is live |
| ProtocolRuns.RetryGetsSameJob | internal/queue/queue.go:70-85 | a client reusing its key within the TTL gets the job of its first request for the same printer and receipt, reactivated exactly if it had failed, and is rejected without effect for others, whatever happened in between |
| ProtocolRuns.LookupCanBeAmbiguous | internal/queue/store_memory.go:149-156 | a run reaches a store in which a clock set back finds two live jobs under one key |
| ProtocolTermination.WorkLowersPotential | internal/queue/process.go:90-125 | every claim, attempt and reconciliation write lowers 2 * attempts left, plus one if pending, summed over unfinished jobs |
| ProtocolTermination.FinitelyManyWrites | internal/queue/reconcile.go:30-49 | any run makes at most 2 * maxAttempts + 1 such writes per activation, maxAttempts being the largest of its starts, so finitely many without new activations |
| MemoryStores.MemoryStore.Save | internal/queue/store_memory.go:26-32 | stores an unaliased copy under the job's ID and changes no other job |
| MemoryStores.MemoryStore.Get | internal/queue/store_memory.go:34-43 | returns an unaliased copy exactly when the ID is stored |
| MemoryStores.MemoryStore.List | internal/queue/store_memory.go:45-55 | lists every stored job once, by ascending ID, whatever the map order |
| MemoryStores.MemoryStore.InsertById | internal/queue/store_memory.go:52-54 | inserting by ID keeps the listing strictly sorted and every other entry in place |
| MemoryStores.MemoryStore.FindNext | internal/queue/store_memory.go:85-93 | the scan ends with the least-ID pending job of the printer, or with none existing |
| MemoryStores.MemoryStore.NextPending | internal/queue/store_memory.go:57-74 | returns a copy of the least-ID pending job of any printer, none exactly when there is none |
| MemoryStores.MemoryStore.ClaimNextPending | internal/queue/store_memory.go:81-100 | marks the least-ID pending job of the printer Running, in place, and changes nothing else; the copy returned does not alias the store |
| MemoryStores.MemoryStore.FindByIdempotencyKey | internal/queue/store_memory.go:149-156 | returns some live job under the key, none exactly when there is none |
| MemoryStores.MemoryStore.EnqueueIdempotent | internal/queue/store_memory.go:105-143 | takes the decision of the specification for a legitimate lookup: reject, return, reactivate or create; without entropy it changes nothing |
| BoltStores.BoltStore.Put | internal/queue/store_bolt.go:53-66 | replaces or inserts one entry and keeps the bucket an ordered listing of the store |
| BoltStores.BoltStore.Save | internal/queue/store_bolt.go:53-66 | a committed Save writes that job only, an uncommitted one nothing |
| BoltStores.BoltStore.Get | internal/queue/store_bolt.go:68-84 | returns the stored job exactly when the ID is stored |
| BoltStores.BoltStore.List | internal/queue/store_bolt.go:90-106 | lists every stored job once, by ascending ID |
| BoltStores.BoltStore.Seek | internal/queue/store_bolt.go:144-156 | the first match of the ordered scan is the least-ID pending job of the printer |
| BoltStores.BoltStore.NextPending | internal/queue/store_bolt.go:112-132 | returns the least-ID pending job of any printer, none exactly when there is none |
| BoltStores.BoltStore.ClaimNextPending | internal/queue/store_bolt.go:138-169 | a committed claim marks the least-ID pending job of the printer Running and changes nothing else; an uncommitted one changes nothing |
| BoltStores.BoltStore.FindByIdempotencyKey | internal/queue/store_bolt.go:244-263 | returns a live job under the key, none exactly when there is none |
| BoltStores.BoltStore.EnqueueIdempotent | internal/queue/store_bolt.go:174-238 | takes the same decision as the in-memory store, in one transaction |
| RetryLoop.LoopCallsBounded | internal/queue/process.go:90-125 | one claim calls Process at least once and at most as often as attempts are left |
| RetryLoop.LoopEnds | internal/queue/process.go:97-123 | a call is the last of its claim exactly when the Save fails, the wait is cancelled, the outcome is not transient or the budget is spent |
| RetryLoop.LoopSleepBounded | internal/queue/process.go:117-124 | with r attempts left the backoffs of one claim total at most base * (2^(r-1) - 1) |
| RetryLoop.EveryCallIsPersisted | internal/queue/process.go:80-112 | each call is followed at once by a Save that carries its attempt number and records how it ended: Done exactly on success, Failed with the message on a permanent error or a spent budget, unchanged otherwise |
| RetryLoop.WaitsDouble | internal/queue/process.go:113-125 | the wait after call n lasts base * 2^n |
| RetryLoop.LoopIsProtocolRun | internal/queue/process.go:90-125 | the retry loop is a run of one worker's protocol steps that shows the same calls and writes in the same order, leaves the same store, and after which the worker holds nothing, whether or not a shutdown had begun before |
| RetryLoop.PassIsProtocolRun | internal/queue/process.go:67-77 | so is a whole pass, the claim included |
| RetryLoop.FailedPassIsProtocolRun | internal/queue/process.go:67-77 | so is a pass whose claim does not commit |
| Queues.Queue.Enqueue | internal/queue/queue.go:56-68 | stores the job as Pending under its new ID with both timestamps, or changes nothing when the ID or the Save fails |
| Queues.Queue.SettleAttempt | internal/queue/process.go:94-108 | counts the attempt and makes the job Done, Failed with its error, or leaves it Running, as the attempt's outcome and the budget say |
| Queues.Queue.RunClaimedJob | internal/queue/process.go:90-125 | does exactly the events of the retry loop's trace, leaves exactly its writes, and reports failure exactly when the last Save failed |
| Queues.Queue.ProcessNextForPrinter | internal/queue/process.go:67-77 | claims the least-ID pending job of the printer and runs the loop on it, or leaves the store unchanged |
| Queues.Queue.ResolveOrphan | internal/queue/reconcile.go:35-48 | counts the interruption as an attempt and records it, and makes the job Pending or, at its budget, Failed, as it reports |
| Queues.Queue.Reconcile | internal/queue/reconcile.go:18-55 | every orphan with attempts left is Pending and every other Failed, each with one more attempt and the interruption on record, no other job has changed, and the counts are theirs; a failing Save ends the pass at that job, the ones before it resolved |
| Queues.ReconciledMeans | internal/queue/reconcile.go:30-49 | the same of the reconciled store, the two kinds of orphans being disjoint and all of them |
| Queues.PrefixResolved | internal/queue/reconcile.go:30-49 | after a pass that stopped at job n, each Running job listed before n is resolved so and every other is as listed |
| Queues.ReconcileIdempotent | internal/queue/reconcile.go:30-49 | a second reconciliation finds nothing to do |
| Queues.ListingCounts | internal/queue/reconcile.go:38-43 | the counters equal the numbers of orphans of each kind in the store |
| ReconcileRun.StartupIsProtocolRun | cmd/receiptd/shutdown.go:38-48 | startup is a protocol run from a stopped daemon to serving workers with every orphan resolved |
| ReconcileRun.FailedStartupIsProtocolRun | internal/queue/reconcile.go:46-48 | so is a startup that a failing Save ends, which leaves the daemon down with the jobs before it resolved |
| Delivery.NetworkPrinter.Send | internal/printer/network.go:61-86 | succeeds exactly when every Write takes something without an error until all is taken, and then delivers the whole stream; failure delivers at most a prefix on one connection, all of it exactly when a Write fails with the last byte |
| Delivery.Deliver | internal/app/process.go:53-58 | success exactly when every link delivers; otherwise fewer whole copies and at most one prefix; on what the printer received, success and all copies complete coincide exactly unless the last copy is late |
| Delivery.SuccessIffAllCopies | internal/app/process.go:53-58 | the exact condition, on the links alone, under which all links deliver just when the printer has all copies |
| Delivery.LateMeans | internal/printer/network.go:71-81 | late means: some Writes leave bytes over, and the next takes them all and fails |
| Delivery.LateLinkFailsAfterAll | internal/printer/network.go:71-76 | a link on which the only copy arrives whole and the attempt fails |
| Bitmaps.SetBit | internal/render/canvas/paint.go:299-300 | setting one packed bit changes that pixel and no other, padding bits included |
| Bitmaps.SamePixelsSameBytes | internal/render/layout/font.go:20-27 | two packed bitmaps with unset padding and the same pixels are the same bytes |
| Glyphs.ScaleGlyph | internal/render/canvas/style.go:31-55 | each pixel of the result is the source pixel of its cell, padding stays unset |
| Glyphs.BoldGlyph | internal/render/canvas/style.go:62-78 | a pixel is set exactly when it or its left neighbour was |
| Glyphs.ItalicGlyph | internal/render/canvas/style.go:85-103 | a pixel is set exactly when the one its row's shear moves there was |
| Glyphs.ShearLeans | internal/render/canvas/style.go:105-116 | rows above the middle lean right, rows below it left, monotonically |
| Glyphs.ShearSteps | internal/render/canvas/style.go:105-116 | rows within five of the middle stay upright, and every five rows from there lean one dot more |
| Glyphs.StyledIsPixelwise | internal/render/canvas/style.go:16-25 | the styled glyph, pixel by pixel, in terms of the original |
| Glyphs.StyleGlyph | internal/render/canvas/style.go:16-25 | scales, then emboldens, then slants, as the style asks |
| Glyphs.ScaleCompose | internal/render/layout/embedded_font.go:64-88 | scaling by a and then by b is scaling by a * b, byte for byte |
| Glyphs.StyleOrderIff | internal/render/canvas/style.go:12-15 | both orders of bold and italic give the same bytes exactly when no left-leaning row has a pixel whose drop at an edge the order decides |
| Glyphs.StyleOrderCanMatter | internal/render/canvas/style.go:12-15 | a glyph of one dot whose two orders of styling differ |
| Images.Threshold | internal/render/layout/image.go:217-222 | transparent and white pixels stay paper, opaque black prints |
| Images.GreyThreshold | internal/render/layout/image.go:217-222 | an opaque grey prints when darker than half white, up to three of 65536 steps lost in rounding |
| Images.DarkerPrints | internal/render/layout/image.go:217-222 | a pixel no lighter in any channel prints when the lighter one does |
| Images.TargetFits | internal/render/layout/asset.go:32-54 | an image never comes out wider than a known printable width |
| Images.TargetKeepsAspect | internal/render/layout/asset.go:32-54 | an image keeps its aspect ratio up to rounding the height down, keeps its size when it fits and none is asked for, gets a requested width that fits, and is as wide as the page when it or the request is wider |
| Images.EverySourceSampled | internal/render/layout/image.go:193-208 | with a target at least as large as the source every source row and column is sampled |
| Images.RasterizeImage | internal/render/layout/image.go:193-208 | each pixel is the threshold of the source pixel it samples, which the source has, and padding stays unset |
| Images.SampleInRange | internal/render/layout/image.go:193-208 | a sampled index lies inside the source |
| Images.RasterizeMultipleIsScale | internal/render/layout/image.go:193-208 | rasterizing to a whole multiple of the source is scaling the source's own bitmap, byte for byte |
| Images.AlignBitmap | internal/render/layout/image.go:161-185 | moves every pixel right by the alignment offset, losing and adding none |
| Images.AlignMargins | internal/render/layout/image.go:161-185 | a narrower bitmap ends flush right, or with margins that differ by at most a dot; others are not moved |
| Fonts.Font.MeasureConcat | internal/render/layout/embedded_font.go:31-38 | measuring is additive |
| Wrap.ParagraphsSplit | internal/render/layout/build.go:177-181 | the paragraphs joined by newlines are the text, and none holds a newline |
| Wrap.FieldsOfJoin | internal/render/layout/build.go:195-203 | splitting a line gives back the words it was joined from |
| Wrap.WrapParagraph | internal/render/layout/build.go:194-212 | the loop computes the greedy packing of the paragraph's words |
| Wrap.WrapKeepsWords | internal/render/layout/build.go:190-212 | every line fits or is a single word, and the lines' words in order are the paragraph's words |
| Wrap.WrapUsesFewestLines | internal/render/layout/build.go:190-212 | no order-preserving breaking whose lines fit or are single words uses fewer lines |
| Wrap.TextKeepsWords | internal/render/layout/build.go:177-212 | the lines of any text, wrapped to any width, hold exactly the text's words in order |
| Wrap.WrapText | internal/render/layout/build.go:177-188 | wraps paragraph by paragraph, or not at all without a width |
| ColumnLayout.ColumnWidths | internal/render/layout/columns.go:82-109 | computes the weighted budgets with the remainder on the last column |
| ColumnLayout.WidthsAreProportional | internal/render/layout/columns.go:82-109 | the widths use up the budget exactly, each but the last is its proportional share rounded down, the last has its share plus less than one dot per column |
| ColumnLayout.WidthsFillPageIff | internal/render/layout/columns.go:70-75 | widths and gaps add up to the page exactly when it holds a dot for each column, and to more otherwise |
| ColumnLayout.TableColumnWidths | internal/render/layout/table.go:60-74 | computes the even budgets |
| ColumnLayout.EvenWidthsFill | internal/render/layout/table.go:54-74 | even budgets use up the page, are at least a dot each and differ only in the last column |
| ColumnLayout.EvenWidthsFillPageIff | internal/render/layout/table.go:54-59 | the same for a table's even widths |
| ColumnLayout.NarrowPageOverflows | internal/render/layout/table.go:54-59 | a page on which both divisions exceed the width |
| ColumnLayout.PadToWidth | internal/render/layout/table.go:112-117 | pads with as many spaces as fit |
| ColumnLayout.SpacesInMaximal | internal/render/layout/table.go:108-117 | those spaces fit and one more would not |
| ColumnLayout.ComposeRow | internal/render/layout/table.go:88-105 | line j is every column's line j, padded and followed by the gap except in the last column |
| ColumnLayout.SliceGivesCell | internal/render/layout/table.go:76-106 | under a fixed advance, cutting a composed line at a column's offset gives that cell's line back |
| ColumnLayout.LineFits | internal/render/layout/table.go:76-106 | under any font with a positive space, a composed line measures at most the columns and the gaps between them |
| ColumnLayout.PaddedFits | internal/render/layout/table.go:108-117 | padding never makes a fitting cell wider than its column |
| ColumnLayout.RowLineFits | internal/render/layout/table.go:76-106 | the same for a row's wrapped cells |
| ColumnLayout.WrappedTextFitsAt | internal/render/layout/build.go:177-212 | at any size, a text whose words fit is wrapped to lines that fit |
| ColumnLayout.TableRowAligned | internal/render/layout/table.go:76-106 | each line of a table row stays on the page, every column starts at the same rune on every line, and slicing there gives back the cell's wrapped text |
| TextLayout.AlignPad | internal/render/layout/align.go:31-48 | pads on the left with the spaces that fit half or all of the free width, or returns the line unchanged |
| TextLayout.AlignedFits | internal/render/layout/align.go:31-48 | the aligned line stays within the width; right-aligned, less than a space is left over, centred, the right margin is no smaller than the left by less than two spaces |
| TextLayout.TableLines | internal/render/layout/table.go:33-52 | header row and rows in order, composed within the page or joined by a space without one |
| TextLayout.TableFitsPage | internal/render/layout/table.go:33-52 | no line of a table measures more than the page when its words fit their columns, under any font with a positive space |
| TextLayout.TableSlicesBack | internal/render/layout/table.go:33-106 | every line of a table, cut at the columns' offsets, gives back the cells of the row it belongs to |
| Tables.TableRowIsThere | internal/render/layout/table.go:33-52 | the header and each row are there once, in order: each block of lines begins where the one before ends and is just as tall as the row's tallest cell |
| Tables.TableStartsAndEnds | internal/render/layout/table.go:33-52 | the blocks make up the table from its first line to its last |
| Tables.TableRowReadsBack | internal/render/layout/table.go:33-106 | every line of row r's block, cut at the columns' offsets, gives back that row's cells |
| Tables.UnboundedTable | internal/render/layout/table.go:33-52 | without a page width there is one line per row, the header first, each holding its row's cells in order with one space between |
| TextLayout.ColumnsLines | internal/render/layout/columns.go:37-68 | composes the wrapped columns side by side, and fails exactly when a column holds anything but text |
| TextLayout.ColumnsFitPage | internal/render/layout/columns.go:37-68 | weighted columns stay on a page that holds a dot for each, under any font with a positive space |
| TextLayout.ColumnsSliceBack | internal/render/layout/columns.go:37-68 | under a fixed advance a line cut at a column's offset gives that column's line back |
| Tables.ColumnsAllThere | internal/render/layout/columns.go:37-68 | columns side by side take just as many lines as the longest of them, so none is cut short |
| Tables.ColumnKeepsWords | internal/render/layout/columns.go:37-68 | a column's lines hold the words of its text elements in order |
| TextLayout.ListLines | internal/render/layout/list.go:43-66 | each item is wrapped to what its marker leaves, at least a dot, the first line carrying the marker and the rest the hanging indent |
| TextLayout.DecimalReads | internal/render/layout/list.go:74-86 | a numbered marker is the decimal numeral of the item's number, without leading zeros |
| TextLayout.MarkerReads | internal/render/layout/list.go:68-86 | an item is indented by two spaces a level, and its marker reads as a bullet, its number or its box, ticked exactly when it is checked |
| TextLayout.ListReadsBack | internal/render/layout/list.go:43-66 | each item's block begins with its marker, and without the marker and the hanging indent it holds exactly the item's words in order |
| TextLayout.ListStartsAndEnds | internal/render/layout/list.go:43-66 | the items' blocks make up the list from its first line to its last |
| TextLayout.ListFitsPage | internal/render/layout/list.go:43-66 | no line of a list measures more than the page when the markers leave a dot and the words fit beside them |
| TextLayout.HangAlignsContent | internal/render/layout/list.go:88-99 | under a fixed advance continuation lines start exactly under the item's content |
| Layout.Page.StackedConcat | internal/render/layout/build.go:32-125 | stacked blocks followed by stacked blocks are stacked |
| Layout.CodesFit | internal/render/layout/barcode.go:19-25 | QR codes and barcodes never exceed a known printable width and keep their size when it fits |
| Layout.BuildElement | internal/render/layout/build.go:48-120 | each element becomes its blocks, every one as tall as painting will make it, or the error of its kind |
| Layout.Build | internal/render/layout/build.go:32-125 | the whole document: every element's blocks in order, each beginning where painting ends the one before; or the first element's error |
| DocumentText.ElementIsThere | internal/render/layout/build.go:32-125 | every element's blocks are in the document, where the element comes in the receipt, and there are no others |
| DocumentText.FirstErrorStops | internal/render/layout/build.go:32-125 | a build that fails stops at the first element that cannot be laid out, with its error |
| DocumentText.TextReadsBack | internal/render/layout/build.go:37-43 | a text's blocks hold its words in order, each in the text's own style and size |
| DocumentText.HeadingReadsBack | internal/render/layout/build.go:44-49 | a heading's blocks hold its words in order, bold and of double size |
| DocumentText.LinesAreBlocks | internal/render/layout/build.go:96-114 | the lines of a table, list or column row are its blocks, in plain style |
| DocumentText.BarcodeCaptioned | internal/render/layout/build.go:84-95 | a barcode's text is printed under it exactly when asked for |
| DocumentText.LaidFailsIff | internal/render/layout/build.go:56-114 | exactly which elements cannot be laid out, and which of them count as a missing asset |
| DocumentText.TextFitsPage | internal/render/layout/build.go:177-212 | where each word fits the page at the text's size, so does every block, however aligned |
| DocumentText.HeadingFitsPage | internal/render/layout/build.go:177-212 | the same for headings |
| Painting.Canvas.PaintGlyph | internal/render/canvas/paint.go:288-303 | sets exactly the glyph's pixels that lie on the canvas and nothing else |
| Painting.Canvas.PaintHLine | internal/render/canvas/paint.go:268-281 | sets exactly the clipped band |
| Painting.Canvas.PaintDivider | internal/render/canvas/paint.go:250-263 | sets exactly the clipped divider, solid or 16 dots in every 24 |
| Painting.Canvas.PaintDecorations | internal/render/canvas/paint.go:221-233 | sets exactly the clipped underline and strikethrough over the text's width |
| Painting.RasterBitmap | internal/render/canvas/paint.go:19-48 | resolves the bitmap of an image, asset, QR code or barcode at the size layout reserved for it |
| Painting.GlyphXIsMeasure | internal/render/canvas/paint.go:148-158 | a glyph begins where the text before it ends as measured |
| Painting.GlyphsCoverMeans | internal/render/canvas/paint.go:148-158 | covered by the first n glyphs of a text means that one of them covers it |
| Painting.CoveredMeans | internal/render/canvas/paint.go:133-166 | covered by the first n blocks means that one of them covers it |
| Painting.Paint | internal/render/canvas/paint.go:95-167 | a canvas bit is set exactly when some block covers that visible pixel, padding bits stay zero, controls are in document order; fails exactly when a block cannot be painted |
| Painting.StackedPaints | internal/render/canvas/paint.go:95-131 | for stacked blocks each Y plus painted height is the next block's Y, and the canvas height is layout's final Y; that the heights hold the blocks' dots is Extents.BlockExtent |
| Painting.StackedIncreasing | internal/render/layout/build.go:32-125 | block positions never decrease and stay within the document |
| Painting.ControlsOrdered | internal/render/canvas/paint.go:136-143 | controls are sorted, within the height, and Terminal only for the document's last block |
| Painting.DividerLooks | internal/render/canvas/paint.go:235-263 | a dashed divider has 16 dots in every 24 from the left edge, any other a dot in every column |
| Painting.DecorationsLook | internal/render/canvas/paint.go:214-233 | an underline takes the last rows of its line, a strikethrough begins at its middle, both one scaled dot thick over the whole text |
| Extents.BlockExtent | internal/render/canvas/paint.go:194-212 | every dot of a block lies within the height reserved for it, when no glyph is taller than a line and the line holds its decorations |
| Extents.BlockWidth | internal/render/canvas/paint.go:133-166 | and, dividers aside, within its measured width |
| Extents.TextReachesLastRow | internal/render/canvas/paint.go:194-212 | no row is reserved in vain: a glyph with a dot at the bottom of its line reaches the last row of its block, at any size |
| Extents.OtherHeights | internal/render/canvas/paint.go:194-212 | a divider covers its first and last row, a spacer takes its own height and controls none |
| Extents.RasterFitsPage | internal/render/layout/asset.go:32-54 | images, assets and codes are never wider than a known printable width |
| Extents.DotInOneBlock | internal/render/layout/build.go:32-125 | no dot is covered by two blocks of a document |
| Extents.NothingClipped | internal/render/canvas/paint.go:95-131 | no covered row is clipped, nor a column of a block that fits the page |
| Escpos.BandHeight | internal/render/escpos/encode.go:124-129 | a band of a non-empty canvas is at least one row, at most the canvas and at most the printer's limit |
| Escpos.AppendRasterBands | internal/render/escpos/encode.go:135-147 | appends the bands of the row range and leaves what was there |
| Escpos.AppendBody | internal/render/escpos/encode.go:59-74 | splices the controls between the bands, or fails at the first control without a command |
| Escpos.Encode | internal/render/escpos/encode.go:39-80 | returns the specified byte stream or its error; when it closes the document is DocumentControls.ClosingIff |
| EscposPaper.WordOfLoHi | internal/render/escpos/encode.go:168-172 | the little-endian pair reads back as the number below 65536 |
| EscposPaper.BandsPrintRows | internal/render/escpos/encode.go:131-147 | however a row range is cut into bands, they print its rows once each and in order |
| EscposPaper.EncodedReads | internal/render/escpos/encode.go:39-80 | any reader that takes the single commands for what they mean reads the stream as the paper |
| EscposPaper.EncodedMeansPaper | internal/render/escpos/encode.go:39-80 | when rows and every band between controls fit in 16 bits, a printer that buffers only the profile's row limit reads the bytes as exactly the paper of the canvas, a definition without bands |
| EscposLimits.MeansPaperIff | internal/render/escpos/encode.go:39-147 | when no cut is dropped for want of a cutter, the bytes mean the paper exactly when a row's bytes and the rows of every band between controls fit in 16 bits |
| EscposLimits.ReadingPays | internal/render/escpos/encode.go:131-147 | whatever bytes a printer understands, they hold a header for each image their paper needs, and no printed row exceeds 65535 bytes |
| EscposLimits.TallGapMisread | internal/render/escpos/encode.go:131-147 | a gap with a band of 65536 rows or more is not read as its rows, whatever the picture holds |
| EscposLimits.SeventyThousandRowsMisread | internal/printer/models.go:17-27 | the catalogued printer misreads 70000 rows sent in one piece |
| EscposLimits.OneFeedSavesThem | internal/printer/models.go:17-27 | with one feed among them it reads them |
| EscposPaper.ChunkingInvisible | internal/render/escpos/encode.go:120-129 | any two limits on the image height succeed alike and print the same paper |
| EscposPaper.EncodeFailsIff | internal/render/escpos/encode.go:39-118 | the encoder's error cases, exactly |
| EscposPaper.PaperReads | internal/render/escpos/encode.go:20-80 | the paper's printed rows are all canvas rows in order, each control comes after exactly the rows above it, and the closing feed and cut appear exactly when no terminal cut ends a document on a cutting printer |
| EscposPaper.CanvasRowAt | internal/render/escpos/encode.go:135-147 | the k-th printed row is byte row k of the canvas |
| EscposPaper.TallBandIsMisread | internal/render/escpos/encode.go:168-172 | a blank-cornered canvas of a multiple of 65536 rows in one band is not understood at all |
| Pipeline.BuiltIsEncodable | internal/render/layout/build.go:32-125 | what layout builds for a validated receipt meets painting's and the encoder's demands |
| Pipeline.Render | internal/app/process.go:37-46 | from elements to bytes: the result is the encoding of a canvas as tall as the laid-out document with a dot exactly where a block covers it, and it means that canvas's paper when, and on a cutting printer only when, its sizes fit the raster command |
| Pipeline.OnlyEmptyRefused | internal/render/escpos/encode.go:39-57 | with a usable default cut, a validated receipt that lays out is refused by the encoder exactly when its canvas is empty |
| Pipeline.EveryDotPrinted | internal/app/process.go:37-46 | every dot of a block no wider than the page, dividers aside, is a dot of the picture that is encoded |
| Pipeline.EveryDotOnce | internal/app/process.go:37-46 | every dot of the picture is one block's and no other's |
| DocumentControls.ControlsAreFeedsAndCuts | internal/render/canvas/paint.go:138-143 | the canvas's controls are the receipt's feeds and cuts, once each and in order |
| DocumentControls.ControlOfBlock | internal/render/canvas/paint.go:138-143 | a control is at its block's row, after the controls before it, and terminal only for the last block |
| DocumentControls.ClosingIff | internal/render/escpos/encode.go:82-96 | on a cutting printer with a usable default cut nothing is appended exactly when the last block is a cut; otherwise ESC d 4 and GS V with the default |
| DocumentControls.TextAfterCutIsCut | internal/render/escpos/encode.go:82-96 | text after the last cut is fed and cut too |
| DocumentControls.PaperDoesWhatIsAsked | internal/render/escpos/encode.go:20-118 | besides its rows, a receipt's paper has the reset, what its feeds and cuts ask for in order, and the closing feed and cut exactly when no cut ends it on a cutting printer |
| DocumentControls.RefusedIff | internal/render/escpos/encode.go:39-118 | a validated receipt that lays out is refused exactly when its canvas is empty, or the printer cuts, its default is no cut, and the receipt needs it |
| Csv.ParseCsv | web/static/builder.js:174-230 | the scanner with its six variables computes the parse; what it makes of padded, quoted and blank lines is CsvReading.PaddedLinesRead |
| Csv.TrimCutsBlanks | web/static/builder.js:174-193 | trimming an unquoted field cuts blanks, and only blanks, off both ends |
| Csv.FormatThenParse | web/static/builder.js:171-253 | parsing formatted rows gives back exactly the rows with a cell, in order and whatever the cells hold, so all of them exactly when none is without one |
| Csv.ParseFormatParse | web/static/builder.js:171-253 | every parsed row has a cell, so formatting and parsing again changes nothing, on every text |
| Csv.FormatThenSplit | web/static/builder.js:246-249 | a formatted header line splits back into its fields |
| CsvReading.PaddedLinesRead | web/static/builder.js:174-230 | lines of plain or quoted cells with blanks around them, ended by LF or CR LF, are read as the rows of the cells' texts, blank lines as none |
| CsvReading.PlainTextRead | web/static/builder.js:174-193 | a single unquoted field is trimmed, and a line of blanks is no row |
| CsvReading.BlankAfterQuoteStays | web/static/builder.js:183-193 | a blank after a closing quote becomes part of the field |
| CsvCanonical.ParseThenFormatIff | web/static/builder.js:171-253 | parsing and formatting again gives a text back exactly when it is canonical: fields quoted just as they need, no stray carriage return, no blank or trailing line |
| CsvCanonical.NotCanonical | web/static/builder.js:171-253 | three texts that do not come back |
| Builder.TableKeepsCells | web/static/builder.js:124-127 | loading and serializing a table loses its rows without cells and nothing else |
| Builder.TableSurvivesIff | web/static/builder.js:124-127 | a table survives loading and serializing exactly when every row has a cell |
| Builder.EmptyRowIsLost | web/static/builder.js:124-127 | a table with one row of no cells comes back without it |
| Builder.ValidTableSurvives | internal/receipt/table.go:22-45 | every table that validation accepts survives unchanged |
| Builder.SerializeStable | web/static/builder.js:74-302 | serializing, loading and serializing again changes nothing, at any depth of columns |
| Builder.LoadingShows | web/static/builder.js:79-121 | loading a leaf element keeps every property under its name |
| Builder.WritingShows | web/static/builder.js:259-302 | writing one does too and leaves none out, an absent flag being one that is off |
| ElementDecoder.DecodeElement | internal/receipt/registry.go:48-70 | dispatches on the type and stops at the depth bound, whatever the input |
| ElementDecoder.UnmarshalElements | internal/receipt/columns.go:94-103 | decodes the elements in order or returns the first error |
| ElementDecoder.UnmarshalColumns | internal/receipt/columns.go:80-109 | decodes the columns in order, one level deeper, or returns the first error |
| ElementDecoder.DecodeOfEncode | internal/receipt/registry.go:42-70 | decoding an encoded element gives it back exactly when nothing sits deeper than level 32, and is refused as too deep otherwise |
| ElementDecoder.ReceiptRoundTrip | internal/receipt/receipt.go:88-114 | the same for a receipt's list of elements |
| ElementDecoder.FramesBounded | internal/receipt/registry.go:42-51 | the dispatcher never nests deeper than the levels left, for every input |
| DecodeVerdict.DecodeJudges | internal/receipt/registry.go:48-70 | a tree decodes exactly when every node is sound (known, well formed, no deeper than 32), and mirrors it; otherwise the error is the first faulty node's in document order |
| DecodeVerdict.UnknownTypeRefused | internal/receipt/registry.go:59-63 | an element of an unregistered type is refused |

## Left out

- HTTP handlers, authentication, configuration, command line and web pages beyond the builder's codec: input and output with shallow logic.
- bbolt, JSON text, PNG output and the image, QR and barcode libraries: a transaction that commits or not, a value tree, and functions (`Library`, `Registry`); `Library.Consistent` assumes that an image's header and its decoding agree on the size and that decoded images are not empty.
- Randomness of job IDs: an ID is a parameter, and the protocol assumes it is unused, as 128 random bits practically are.
- Time: timestamps are arbitrary integers read in any order; durations and the doubling backoff are unbounded, so the wrap-around of a 64-bit duration is not modelled.
- Queue.ProcessNext: its claim is two store operations and the daemon never uses it; the per-printer claim is modelled instead.
- Queue.Cancel: in the protocol it is one atomic step from Pending to Cancelled; what the code's split read and write does instead is CancelRace.StaleCancelSafeIff.
- MemoryStores.MemoryStore.Save: a crash, which empties this store, is not modelled; the protocol's store is durable.
- Queues.Queue.Enqueue: the protocol admits new jobs with no attempts and, for a plain enqueue, no key, which is how the service creates them.
- Delivery.Deliver: a missing profile or printer and a failed rendering or encoding end Process before anything is sent, and are not modelled.
- Contents of error messages and logs: only the kind of an error, and on a job the attempt number and the failure's text as an opaque string.
- Wrap.WrapText: text is a sequence of characters; invalid UTF-8 is not modelled.
- TextLayout.ListFitsPage: stated for markers that leave a dot and words that fit beside them; a deeper indent or a wider word overflows by design.
- ColumnLayout.TableRowAligned: stated for pages with at least a dot per column and words that fit their columns; a word wider than its column overflows by design.
- ColumnLayout.PadToWidth: assumes that a space has a positive advance, without which the code's loop does not end.
- EscposLimits.MeansPaperIff: on a printer without a cutter a dropped cut still ends a band, so there only the sufficient half is stated (EscposPaper.EncodedMeansPaper); feeds are below 256, as layout's always are.
- ElementDecoder.DecodeOfEncode: the leaf elements' own JSON forms are assumed to read back what they wrote (`Registry.Faithful`); a column with a nil and one with an empty list of elements are the same value.
- Builder.SerializeStable: form values are typed (texts, integers, flags); JavaScript's coercions of other values are not modelled.
- Glyphs.ScaleGlyph: also stands for the copy of the same loop in the embedded font.
- Validate bounds of single fields, table column counts and status codes: single-branch facts.

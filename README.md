# LED torus viewer and animations, modelled in Dafny

The LED torus is a ring of LEDs that spins to show a 3D image. The
animation generators (`ledtorus_anim.c` for the 7 x 8 display,
`ledtorus2_anim.c` for the 14 x 16 one) compute one colour frame after
another. Each frame holds three bytes per LED, for every radial position
`x`, vertical position `y` and angular step `a`. A generator writes each
frame to standard output, followed by zero bytes up to a multiple of 512.
The viewer (`io.cpp`, `ledtorus.cpp`) does four things:

- It reads those padded frames from standard input into a ring of four
  frame slots.
- It publishes one frame every 40 ms (25 frames per second).
- It resynchronises its clock when it falls more than half a second behind.
- It draws the torus as one OpenGL line segment per LED and angular step.

Three more pieces of the repository feed the animations:

- a loader for binary Stanford PLY meshes (`stanford_ply_loader.c`);
- the point cloud of the rubber-duck animation, with its sorted-array
  window searches (`rubberduck.c`);
- 3D simplex noise (`simplex_noise.c`).

The project models these parts, one module per concern:

| module | file | what it covers |
|---|---|---|
| `Common` | common.dfy | machine integer ranges, `Option`/`Result`, `roundf`, and `rand()` as an oracle with a call cursor (`RandStream`), plus `irand`/`drand` |
| `FrameLayout` | frame_layout.dfy | the `setpix` slot map and its three-byte write, `cls`, and the 512-byte frame padding |
| `FrameTransport` | frame_transport.dfy | the four-slot frame ring (`get_free_slot`, `slot_ready`, `get_ready_slot`, `release_slot`), the current-frame hand-over, and the frame-rate thread's pacing decision |
| `FrameReader` | frame_reader.dfy | the reader thread's loop that fills one padded frame, with its rewind at end of input |
| `Fireworks` | fireworks.dfy | the rocket and ember pools of both generators (one model with a configuration per generator) |
| `MigratingDots` | migrating_dots.dfy | the choreography of the migrating-dots animation |
| `AnimHelpers` | anim_helpers.dfy | `g_text`, `envelope`, `an_test3` and the plot of `an_graphs` |
| `LedTorusView` | led_torus_view.dfy | `add_face`, the integer part of `build_geometry`, and the colour doubling in `draw_ledtorus` |
| `PlyHeader`, `PlyBody`, `PlyLoader` | ply_header.dfy, ply_body.dfy, ply_loader.dfy | `read_uint`, `read_uchar`, `read_float`, the header rules, the body layout, and `load_ply`/`free_ply` with a `calloc` that may fail |
| `Rubberduck` | rubberduck.dfy | `cmp_3float`, `low_limit`, `high_limit`, `fold_points_with_kernel` with its squared-distance test, and the end test of `rubberduck_anim_frame` |
| `SimplexNoise` | simplex_noise.dfy | the lattice hash (`shuffle2`, `shuffle4`, `shuffle`), `K` and its side effect on `A[]`, and the corner order of `simplex_noise_3d` |

The model takes the source's own form:

- Code that updates state in place becomes classes with `modifies` clauses:
  the frame ring, the reader, the particle pools, the dot choreography,
  the geometry buffers and the PLY loader.
- Frames become `array<byte>` values written slot by slot.
- Loops become `while` loops with invariants. Each is proved against a
  specification function on sequences, and that function's properties are
  proved as lemmas.
- Pure C expressions become functions.

Three kinds of input are fixed in the model rather than computed:

- **`rand()`** is an oracle `rand: nat -> int` with values in
  `[0, RAND_MAX]`. A cursor counts the calls made so far, so every
  specification says which random values an operation uses, and in
  which order.
- **Floats** are reals. The float functions the code calls (`sqrtf` in the
  fireworks, `sinf`, `floorf`, the sphere mapping of `vrand`, the noise
  sampled by `an_graphs`) are parameters. The `sqrtf` of the rubber-duck
  distance test is compared with a bound, and becomes the same comparison
  on squares.
- **The display dimensions** are parameters of the frame layout.
  `ledtorus.cpp` and `io.h` give different angular sizes (335 and 205).

The PLY header's range test `n <= 0 && n >= 1e8`
(stanford_ply_loader.c:111, stanford_ply_loader.c:117) can never hold.
The model therefore keeps it as written: every parsed count is accepted
(`PlyHeader.CountNeverRejected`). It is not listed under Findings
because the intended test cannot be read off the code: `||` would also
reject an empty element (a count of 0), which a PLY file may declare, so
there is no corrected behaviour the model could adopt with confidence.

## Model

| member | source | states |
|---|---|---|
| Common.Round | ledtorus_anim.c:734-736 | roundf: the result is within one half of x, halfway cases going away from zero |
| Common.RemoveAt | ledtorus_anim.c:1087-1088 | taking slot i out by moving the last element into it: one element shorter, the prefix before i kept, the last element in slot i, the rest kept |
| Common.RemoveAtMultiset | ledtorus_anim.c:1087-1088 | the removed element together with what remains is exactly the original multiset |
| Common.Irand | ledtorus_anim.c:113-118 | irand(n) = rand() / (RAND_MAX/n + 1) always lies in [0, n) |
| Common.WrapInt | ledtorus_anim.c:117 | the two's complement wrap of an int result lies in the int range, keeps every value already in it, and differs from the exact value by a multiple of 2^32 |
| Common.CDiv | ledtorus_anim.c:117 | C's int division agrees with exact division for non-negative operands and is 0 for a non-negative dividend smaller than the magnitude of a negative divisor |
| Common.IrandAsWritten | ledtorus_anim.c:113-118 | irand(n) computed in wrapping int arithmetic equals Irand for every n >= 2 |
| Common.IrandOneOverflows | ledtorus_anim.c:117 | for n = 1 the divisor RAND_MAX/1 + 1 exceeds INT_MAX; wrapped it is INT_MIN, and the quotient is 0, the value Irand(1, r) gives |
| Common.IrandDivisorFits | ledtorus_anim.c:117 | for n >= 2 the divisor RAND_MAX/n + 1 lies in (0, INT_MAX], so no overflow happens there |
| Common.Drand | ledtorus_anim.c:120-125 | drand(n) = rand() / (RAND_MAX/n) always lies in [0, n] |
| Common.RandStream.NextRand | ledtorus_anim.c:117 | one rand() call returns the next value of the generator's sequence, in [0, RAND_MAX], and advances it by one |
| Common.RandStream.NextIrand | ledtorus_anim.c:113-118 | irand consumes exactly one rand() value and returns Irand of it |
| Common.RandStream.NextDrand | ledtorus_anim.c:120-125 | drand consumes exactly one rand() value and returns Drand of it |
| Common.ValidRand | ledtorus_anim.c:113-125 | the rand() stream the animations draw from: every value lies in [0, RAND_MAX] |
| Common.IrandBelow | ledtorus_anim.c:113-118 | irand's promise 'random integer 0 <= x < N': for n > 0 and any rand() value r, r / (RAND_MAX / n + 1) lies in [0, n) |
| Common.RandStream.constructor | ledtorus_anim.c:113-125 | a fresh rand() stream over the given values, positioned at its first value |
| FrameLayout.PlaneOffsetInRange | ledtorus_anim.c:150 | y + x*LEDS_Y addresses one of the LEDS_Y*LEDS_X slots of an angular plane |
| FrameLayout.SlotIndexInRange | ledtorus_anim.c:146-154 | every in-range (x, y, a) addresses a slot inside frame_t |
| FrameLayout.SlotCoordsOfIndex | ledtorus_anim.h:20 | decoding the slot of (x, y, a) gives back (x, y, a) |
| FrameLayout.IndexOfSlotCoords | ledtorus_anim.h:20 | every slot of the frame is the slot of exactly the coordinates decoded from it: the map is onto |
| FrameLayout.SlotIndexInjective | ledtorus2_anim.h:26 | two in-range triples share a slot only when they are equal |
| FrameLayout.SetPix | ledtorus_anim.h:16-24 | setpix writes r, g, b to the three bytes of the slot of (x, y, a) and leaves every other byte of the frame unchanged |
| FrameLayout.Cls | ledtorus_anim.c:211-215 | cls leaves every byte of the frame zero |
| FrameLayout.FramePadding | ledtorus_anim.c:1283-1287 | the padding after a frame is below 512, brings the length to a multiple of 512, and is zero exactly when the length already is one |
| FrameLayout.PaddedSizeIsRoundUp | io.cpp:91 | frame plus padding equals the reader's buffer size (len + 511) / 512 * 512 |
| FrameLayout.Torus1FrameFitsU16 | ledtorus_anim.c:1242 | the first display's frame (34440 bytes) fits the uint16_t length, and padded it is 34816 bytes |
| FrameLayout.DisplaySlotBounds | ledtorus_anim.c:16-19 | on both displays every in-range triple addresses a slot below LEDS_X*LEDS_Y*LEDS_TANG |
| FrameLayout.ValidDims | ledtorus_anim.c:16-19 | the display dimensions LEDS_X, LEDS_Y, LEDS_TANG are all positive |
| FrameLayout.Leds | ledtorus_anim.c:19 | the number of slots of frame_t: LEDS_Y * LEDS_X * LEDS_TANG |
| FrameLayout.FrameBytes | ledtorus_anim.c:19 | sizeof(frame_t): three colour bytes per slot |
| FrameLayout.InBox | ledtorus_anim.c:16-19 | (x, y, a) is a coordinate of the display: each within its dimension |
| FrameLayout.SlotIndex | ledtorus_anim.h:20 | the slot setpix writes: y + x*LEDS_Y + a*(LEDS_Y*LEDS_X) |
| FrameLayout.SlotCoords | ledtorus_anim.h:20 | the coordinates (x, y, a) whose SlotIndex is a given slot (its inverse, proved in SlotCoordsOfIndex and IndexOfSlotCoords) |
| FrameTransport.PendingSlots | io.cpp:35-37 | the published slots are numReady slot numbers, each a slot of the ring |
| FrameTransport.InitRingValid | io.cpp:35-37 | the initial counters satisfy the cursor invariant with nothing published |
| FrameTransport.FirstFreeAfterPending | io.cpp:67-85 | under the cursor invariant the producer cursor is numReady slots after the oldest published slot |
| FrameTransport.SlotsInRange | io.cpp:43-65 | get_free_slot and get_ready_slot both answer a slot of the ring |
| FrameTransport.ProducerConsumerDisjoint | io.cpp:43-65 | while the ring is neither empty nor full, the slot being filled is not the slot being shown nor any published slot |
| FrameTransport.SlotReadyAppends | io.cpp:67-75 | slot_ready keeps the invariant, keeps last_free_frame and appends the filled slot to the published ones |
| FrameTransport.ReleaseDropsOldest | io.cpp:77-85 | release_slot keeps the invariant, keeps first_free_frame and drops exactly the slot get_ready_slot handed out |
| FrameTransport.RunIsFifo | io.cpp:120-155 | over any schedule of the two threads, the slots taken are the pending slots followed by the slots published, in order |
| FrameTransport.FifoFromStart | io.cpp:120-155 | from the initial counters the frame-rate thread takes the slots in exactly the order the reader published them |
| FrameTransport.UsecPassed | io.cpp:167-169 | usec_passed is computed modulo 2^64 |
| FrameTransport.UsecPassedExact | io.cpp:168-169 | the wrapped computation equals the true elapsed microseconds whenever that is in range |
| FrameTransport.UsecTarget | io.cpp:170 | usec_target is frame * (1000000 / FRAMERATE) whenever that fits in 64 bits |
| FrameTransport.PaceDecision | io.cpp:171-184 | sleep exactly up to the deadline when early; restart the schedule when more than 0.5 s late; otherwise carry on |
| FrameTransport.ResyncRestartsSchedule | io.cpp:179-183 | after a restart the next deadline is one frame period, and a reading within it never restarts again |
| FrameTransport.Transport.constructor | io.cpp:35-41 | an empty ring with the initial counters, zeroed frames, the lock free and the clock started |
| FrameTransport.Transport.GetFreeSlot | io.cpp:43-53 | the answer is first_free_frame, a slot other than the one being shown when frames are pending |
| FrameTransport.Transport.GetReadySlot | io.cpp:55-65 | the answer is (last_free_frame + 1) % FRAMES, the oldest published slot |
| FrameTransport.Transport.SlotReady | io.cpp:67-75 | the counters take one slot_ready step, the filled slot is appended to the published ones, nothing else changes |
| FrameTransport.Transport.ReleaseSlot | io.cpp:77-85 | the counters take one release_slot step, the oldest published slot is dropped, nothing else changes |
| FrameTransport.Transport.Publish | io.cpp:120-122 | the reader's hand-over appends the buffer's first frame-size bytes to the published frames |
| FrameTransport.Transport.FrameTick | io.cpp:149-184 | the oldest published frame becomes the current frame and is dropped from the ring; the frame counter and time origin follow the pacing decision |
| FrameTransport.Transport.GetCurrentFrame | io.cpp:190-195 | the GUI holds the lock and reads the current frame; nothing else changes |
| FrameTransport.Transport.ReleaseFrame | io.cpp:197-201 | the lock is released; nothing else changes |
| FrameTransport.CursorInv | io.cpp:35-37 | the ring invariant: num_ready_frames in [0, FRAMES], both cursors in [0, FRAMES), and first_free_frame - last_free_frame - 1 equal to num_ready_frames modulo FRAMES |
| FrameTransport.FreeSlot | io.cpp:50 | get_free_slot's answer: first_free_frame |
| FrameTransport.ReadySlot | io.cpp:62 | get_ready_slot's answer: (last_free_frame + 1) % FRAMES |
| FrameTransport.SlotReadyStep | io.cpp:71-72 | slot_ready on the counters: first_free_frame advances modulo FRAMES and num_ready_frames grows by one |
| FrameTransport.ReleaseStep | io.cpp:81-82 | release_slot on the counters: last_free_frame advances modulo FRAMES and num_ready_frames drops by one |
| FrameTransport.Run | io.cpp:43-85 | a schedule of producer and consumer turns run from some counters: the final counters, the slots handed out to the producer and to the consumer in order, or None when a turn would wait forever (ring full for the producer, empty for the consumer) |
| FrameTransport.ValidTime | io.cpp:140 | a struct timeval reading: tv_usec in [0, 1000000) |
| FrameTransport.Microseconds | io.cpp:167-169 | the exact number of microseconds between two timeval readings, the value usec_passed approximates modulo 2^64 (UsecPassedExact) |
| FrameTransport.Transport.State | io.cpp:35-37 | the three shared counters as a ring value |
| FrameTransport.Transport.Valid | io.cpp:35-38 | the transport invariant: FRAMES buffers of one frame each, CursorInv on the counters, and the published frames held, oldest first, in the slots PendingSlots names |
| FrameReader.BufSize | io.cpp:91 | the reader's buffer is the frame size rounded up to a multiple of 512 |
| FrameReader.BufferHoldsOnePaddedFrame | io.cpp:91 | the buffer holds exactly one frame plus the generators' padding |
| FrameReader.PaddedStream | ledtorus_anim.c:1282-1287 | the generators' output is frame, padding, frame, padding, ...: its length is the number of frames times the padded size |
| FrameReader.PaddedStreamRoundTrip | io.cpp:95-121 | reading the k-th buffer of a padded stream and keeping its first frame-size bytes gives back the k-th frame |
| FrameReader.ReadResult | io.cpp:98 | read() returns at most the request and what is left, 0 only at end of file, and -1 when interrupted |
| FrameReader.SofarAfterRead | io.cpp:117 | the unsigned counter advances by the bytes read when no wrap occurs |
| FrameReader.InterruptAtFrameStartPublishesStale | io.cpp:95-118 | an interrupted read at the start of a buffer makes sofar 2^32 - 1, ending the loop with no byte read |
| FrameReader.InterruptMidFrameLosesByte | io.cpp:117 | an interrupted read in mid-buffer moves sofar back by one byte |
| FrameReader.DisplayBuffersBelowWrap | io.cpp:91 | both displays' buffers are far below 2^32, so the wrapped counter is past the end |
| FrameReader.StdinReader.Fill | io.cpp:95-118 | with an interrupted read retried (the intended behaviour, see Findings): a filled buffer holds input[start .. start + size] with start the old position or 0 after a rewind; exit 0 only at end of an unseekable input; exit 1 only after a failed read |
| FrameReader.StdinReader.ReaderTurn | io.cpp:93-123 | with Fill's retry of an interrupted read: a filled buffer's frame is published through one slot_ready step; otherwise the ring is unchanged |
| FrameReader.StdinReader.constructor | io.cpp:91 | a reader over the given input with an empty buffer of the padded frame size (BufSize), positioned at the start |
| Fireworks.ConfigsValid | ledtorus_anim.c:767-780 | the constants of both generators (display size, launch band, height range, launch frequency, ground span) form a valid configuration |
| Fireworks.Shifted | ledtorus2_anim.c:498-509 | ut_fireworks_shiftem moves entry 1 to 2 and entry 0 to 1, keeping entry 0 |
| Fireworks.LaunchHistoryUniform | ledtorus2_anim.c:569-573 | after the launch position is stored and shifted twice, all three history entries are the launch position |
| Fireworks.LaunchPos | ledtorus_anim.c:787-789 | a launch position lies in the launch band on the ground |
| Fireworks.Flight | ledtorus_anim.c:793-799 | the burst height lies in [4, 7], the start delay in [32, 67), and vz = sqrt(2 g s) |
| Fireworks.NewRocket | ledtorus_anim.c:785-801 | a new rocket uses six rand() values, has three equal history entries on the ground, delay and height in range, and frame as launch time and glow base with period 0 |
| Fireworks.LaunchAddsAtMostOne | ledtorus_anim.c:783-802 | a rocket is added exactly when the pool is empty, or has room and irand(25) is 0; otherwise the pool is unchanged |
| Fireworks.Glow | ledtorus_anim.c:810-817 | the fuse glow changes only the glow timer; a renewed period is 8 .. 13 starting at the current frame, drawing two values |
| Fireworks.Climb | ledtorus_anim.c:857-862 | one climbing frame keeps a rocket well formed (three history entries) |
| Fireworks.Spawn | ledtorus_anim.c:835-851 | an ember starts at the rocket's position, at the current frame, with a delay in [50, 100), drawing four or five values |
| Fireworks.SpawnLoop | ledtorus_anim.c:828-852 | the ember loop adds min(requested, room left) embers after the existing ones, each at the rocket's position with a delay in range |
| Fireworks.BurstSize | ledtorus2_anim.c:608-634 | a burst requests 10 .. 29 embers and adds exactly as many as fit in the 300-slot pool, keeping the existing embers in front |
| Fireworks.RocketTurn | ledtorus_anim.c:806-864 | one turn keeps the pool well formed and bounded, only appends embers, and moves to the next index exactly when the rocket does not explode |
| Fireworks.RocketSweep | ledtorus_anim.c:804-865 | the rocket pass keeps the pool well formed, never grows it, and only appends embers |
| Fireworks.CountExplodingAppend | ledtorus_anim.c:822 | the number of exploding rockets of a concatenation is the sum of the counts |
| Fireworks.RemoveAtTail | ledtorus_anim.c:853 | after removing slot i by moving the last rocket into it, the rest to process is the former last rocket followed by the unprocessed middle |
| Fireworks.RocketSweepRemovesExploding | ledtorus_anim.c:804-865 | the rocket pass removes exactly as many rockets as were exploding |
| Fireworks.TailCount | ledtorus_anim.c:855-864 | processing a rocket that does not explode leaves the count of exploding rockets in the rest unchanged |
| Fireworks.RemovedCount | ledtorus_anim.c:853 | removing an exploding rocket lowers the count of exploding rockets to process by one |
| Fireworks.Value | ledtorus_anim.c:877-879 | the fade value 1 - fade_factor * age, clamped below at 0, lies in [0, 1] unless the fade factor is negative |
| Fireworks.EmberStep | ledtorus_anim.c:869-892 | an ember is deleted exactly when it reaches the ground with its delay at 0 or its value at most 0.05; on the ground it is set to z = 0 with the delay decremented in uint32_t; in the air it moves and keeps its delay |
| Fireworks.EmberTurn | ledtorus_anim.c:867-895 | one turn keeps the processed prefix, shrinks the work left, and moves on exactly when the ember survives |
| Fireworks.EmberSweep | ledtorus_anim.c:867-895 | the ember pass keeps the processed prefix and never grows the pool |
| Fireworks.SurvivorsAppend | ledtorus_anim.c:867-895 | the surviving embers of a concatenation are those of each part, in order |
| Fireworks.SurvivorsAfterRemove | ledtorus_anim.c:888 | removing a dying ember by moving the last one into its slot leaves the survivors of the rest unchanged, as a multiset |
| Fireworks.SurvivorsAfterStep | ledtorus_anim.c:869-894 | stepping a surviving ember moves it from the unprocessed part to the processed part |
| Fireworks.EmberSweepKeepsSurvivors | ledtorus_anim.c:867-895 | the ember pass keeps exactly the surviving embers, each stepped once, as a multiset (the order changes through the swap-with-last deletion) |
| Fireworks.AnimStepBounds | ledtorus_anim.c:783-895 | after every call the pools stay within 10 rockets and 300 embers, and a launch adds at most one rocket |
| Fireworks.TangWrap | ledtorus_anim.c:737-740 | one wrap adds or subtracts a turn, and lands in range exactly when y was within one turn on either side |
| Fireworks.TangWrapSameAngle | ledtorus_anim.c:737-740 | within one turn on either side, the wrap equals y modulo LEDS_TANG |
| Fireworks.PixelCell | ledtorus_anim.c:731-747 | a particle is drawn exactly when its rounded x, z and wrapped angle are in range, at (x, LEDS_Y-1-z, angle) |
| Fireworks.UtFireworksSetPix | ledtorus_anim.c:731-747 | out of range the frame is unchanged; otherwise exactly the three bytes of the particle's cell are set |
| Fireworks.GroundCells | ledtorus_anim.c:897-901 | after cls and the ground loop, a slot is blue 17 when it is ground and black otherwise |
| Fireworks.DrawGround | ledtorus_anim.c:897-901 | cls and the ground loop leave every byte of the frame as GroundByte says |
| Fireworks.GroundRow | ledtorus_anim.c:899-901 | when the inner loop ends, the cells of that angle outside the ground span were already final |
| Fireworks.GroundStepAt | ledtorus_anim.c:901 | the ground write at (j, LEDS_Y-1, i) gives its own slot its final bytes |
| Fireworks.GroundStep | ledtorus_anim.c:900-901 | one ground write moves one cell into the finished part and leaves the rest as they were |
| Fireworks.FireworksState.constructor | ledtorus_anim.c:67-81 | the zero-filled static state: both pools empty |
| Fireworks.FireworksState.Init | ledtorus_anim.c:750-757 | in_fireworks empties both pools |
| Fireworks.FireworksState.ShiftEm | ledtorus_anim.c:717-728 | ut_fireworks_shiftem shifts rocket i's history and changes no other rocket |
| Fireworks.FireworksState.DrawLaunchPos | ledtorus_anim.c:787-788 | the launch position's two draws, as LaunchPos |
| Fireworks.FireworksState.DrawFlight | ledtorus_anim.c:793-799 | the flight's four draws, as Flight |
| Fireworks.FireworksState.Place | ledtorus_anim.c:787-791 | slot i gets the launch position in all three history entries; other rockets unchanged |
| Fireworks.FireworksState.Ignite | ledtorus_anim.c:785-801 | slot i holds NewRocket of its old contents; other rockets unchanged |
| Fireworks.FireworksState.LaunchPhase | ledtorus_anim.c:782-802 | the rockets and the rand() position are those of Launch; the embers are unchanged |
| Fireworks.FireworksState.SpawnEmber | ledtorus_anim.c:834-851 | one ember and the rand() position, as Spawn |
| Fireworks.FireworksState.BurstPhase | ledtorus_anim.c:826-852 | the embers and rand() position after a burst are those of Burst |
| Fireworks.FireworksState.PushEmber | ledtorus_anim.c:828-852 | one pass of the burst loop: the rest of the loop from the new state gives what the loop from the old state gives |
| Fireworks.FireworksState.GlowAt | ledtorus_anim.c:810-820 | rocket i and the rand() position become those of Glow; other rockets unchanged |
| Fireworks.FireworksState.ClimbAt | ledtorus_anim.c:855-863 | rocket i becomes Climb of it; other rockets unchanged |
| Fireworks.FireworksState.Explode | ledtorus_anim.c:822-854 | the embers follow Burst and the last rocket takes slot i |
| Fireworks.FireworksState.RocketAt | ledtorus_anim.c:806-864 | one turn of the rocket loop, as RocketTurn |
| Fireworks.FireworksState.RocketPhase | ledtorus_anim.c:804-865 | the rocket loop, as RocketSweep |
| Fireworks.FireworksState.EmberAt | ledtorus_anim.c:869-894 | one turn of the ember loop, as EmberTurn; rockets unchanged |
| Fireworks.FireworksState.EmberPhase | ledtorus_anim.c:867-895 | the ember loop, as EmberSweep; rockets unchanged |
| Fireworks.FireworksState.Animate | ledtorus_anim.c:782-895 | the pool part of an_fireworks, as AnimStep |
| Fireworks.ValidConfig | ledtorus_anim.c:767-780 | the animation's constants are usable: valid dimensions, positive tang_factor and new_freq, min_height below max_height, a positive launch spread, and the ground range within LEDS_X |
| Fireworks.WellFormed | ledtorus_anim.c:71 | a rocket keeps its three-entry position history x[3], y[3], z[3] |
| Fireworks.AllWellFormed | ledtorus_anim.c:75 | every rocket of the pool is WellFormed |
| Fireworks.Angular | ledtorus_anim.c:788 | a length along the angle in position units: divided by tang_factor, as in LEDS_TANG/tang_factor |
| Fireworks.Launch | ledtorus_anim.c:783-802 | the launch step: a new rocket (NewRocket) is appended when no rocket is in flight, or when the pool has room and irand(new_freq) is 0; the draw is made only in the second case; the pool is otherwise unchanged (LaunchAddsAtMostOne) |
| Fireworks.Waiting | ledtorus_anim.c:806-807 | a rocket is still on its fuse: (frame - base_frame) as uint32_t is below delay |
| Fireworks.Exploding | ledtorus_anim.c:822 | a launched rocket explodes once its height z[0] is above its burst height s |
| Fireworks.SpawnLoopStep | ledtorus_anim.c:828-852 | while the pool has room and embers are left, one turn of the ember loop appends the Spawn result and continues with one fewer ember from the next rand() position |
| Fireworks.Burst | ledtorus_anim.c:826-852 | a kaboom: irand(20) and drand(6.5) drawn, then the ember loop for 10 + irand(20) embers sharing that hue (BurstStart, BurstSize) |
| Fireworks.BurstStart | ledtorus_anim.c:826-828 | a burst is the ember loop for 10 + Irand(20, rand(k)) embers with hue Drand(6.5, rand(k + 1)), started at rand() position k + 2 |
| Fireworks.SpawnLoopDone | ledtorus_anim.c:828-831 | the ember loop leaves pool and rand() position unchanged once no ember is left or the pool holds max_phase2 embers |
| Fireworks.CountExploding | ledtorus_anim.c:822 | how many rockets of the pool are exploding this frame |
| Fireworks.Drag | ledtorus_anim.c:873-875 | an ember's velocity after one frame: each component reduced by resist times itself, and g taken off the vertical one |
| Fireworks.Survivors | ledtorus_anim.c:867-895 | the ember pass's reference: every ember stepped (EmberStep), the dead ones dropped, order kept; EmberSweepKeepsSurvivors proves the swap-delete loop keeps exactly these up to order |
| Fireworks.AnimStep | ledtorus_anim.c:782-895 | one call of an_fireworks on the pools: Launch, then the rocket pass (RocketSweep), then the ember pass (EmberSweep), threading the rand() position; AnimStepBounds proves the pool bounds |
| Fireworks.Steps | ledtorus_anim.c:735 | a particle's angle in LED steps: yf * tang_factor |
| Fireworks.IsGround | ledtorus_anim.c:899-901 | the ground cells: the bottom row LEDS_Y - 1, radial positions in [2, LEDS_X - 2) (the configured ground range), every angle |
| Fireworks.GroundByte | ledtorus_anim.c:897-901 | byte k of the frame after cls and the ground loop: blue component 17 on the ground cells, zero everywhere else |
| Fireworks.GroundDone | ledtorus_anim.c:899-901 | the ground loop has already written the cell of byte k when it is at (i, j): the outer loop is past its angle, or at it with the inner loop past its radial position |
| Fireworks.FireworksState.Valid | ledtorus_anim.c:67-82 | the state invariant: p1 has 10 slots and p2 300, num_phase1 and num_phase2 within them, every rocket slot WellFormed |
| Fireworks.FireworksState.Rockets | ledtorus_anim.c:68-75 | the rockets in flight: p1[0 .. num_phase1) |
| Fireworks.FireworksState.Embers | ledtorus_anim.c:69-81 | the embers in flight: p2[0 .. num_phase2) |
| Fireworks.FireworksState.StaleSlot | ledtorus_anim.c:785 | the first unused rocket slot p1[num_phase1], which a launch fills |
| MigratingDots.SetCoord | ledtorus_anim.c:1156-1170 | writing the coordinate of a face's axis makes that coordinate the given value |
| MigratingDots.ChooseEndPlane | ledtorus_anim.c:1063-1065 | the do-while returns the first irand(6) draw whose face lies on another axis than the start face; every earlier draw was on the start face's axis |
| MigratingDots.TextAfterRoundAsWritten | ledtorus_anim.c:1068-1070 | as written, the index is compared with strlen as an unsigned value, so every negative next index becomes -1 |
| MigratingDots.TextAfterRound | ledtorus_anim.c:1068-1070 | the index advances by one and wraps to -1 after the last letter of the 7-letter text |
| MigratingDots.TextIndexSkipsBlanks | ledtorus_anim.c:1010 | from the initial -5, the code as written jumps straight to -1, while the intended count goes to -4 |
| MigratingDots.TextIndexAgreesFromMinusOne | ledtorus_anim.c:1068-1070 | from -1 onwards both versions agree and the index stays in [-1, 7) |
| MigratingDots.TextIndexFiveBlanks | ledtorus_anim.c:1010 | the intended index reaches the first letter after five blank rounds |
| MigratingDots.StartPosOnFace | ledtorus_anim.c:1089-1131 | a round's dot (i, j) starts on the start face's level, and different (i, j) give different start positions |
| MigratingDots.StartSpeedIntoBox | ledtorus_anim.c:1136-1141 | the start speed points into the box: positive from even faces, negative from odd faces other than the top, zero on the top |
| MigratingDots.EndSpeedTowardsFace | ledtorus_anim.c:1043-1048 | the second-stage speed points towards the end face: positive to odd faces, negative to even faces except the bottom, zero to the bottom |
| MigratingDots.DotStep | ledtorus_anim.c:1153-1181 | a waiting dot is unchanged; a moving dot stops exactly on its target once it reaches or passes it, and otherwise is still short of it; target and delay never change |
| MigratingDots.DotStepNoOvershoot | ledtorus_anim.c:1170-1175 | a dot that has not passed its target does not pass it in one step |
| MigratingDots.CountMoving | ledtorus_anim.c:1150-1182 | the number of dots still moving is at most the number of dots |
| MigratingDots.CountMovingAppend | ledtorus_anim.c:1150-1182 | the count of moving dots is additive over concatenation |
| MigratingDots.NoneMovingMeansAllArrived | ledtorus_anim.c:1183-1184 | moving is 0 exactly when no dot is still on its way |
| MigratingDots.DrawCellAsWrittenHitsGap | ledtorus_anim.c:1217-1220 | as written, a dot at the top of the innermost column (x 0, z 7) moving vertically is drawn at z 6, where the display has no LED |
| MigratingDots.DrawCell | ledtorus_anim.c:1200-1221 | the corrected placement agrees with the code everywhere except the top of the innermost column when moving vertically |
| MigratingDots.DrawCellAvoidsGaps | ledtorus_anim.c:1200-1221 | the corrected placement of a dot on the sheet always lands on an LED the display has |
| MigratingDots.Iota | ledtorus_anim.c:1080-1082 | the permute array starts as 0, 1, ..., n - 1 |
| MigratingDots.Targets | ledtorus_anim.c:1087 | the targets of a sequence of dots, one per dot |
| MigratingDots.Deal | ledtorus_anim.c:1083-1088 | dealing from the pool yields one target per pool entry |
| MigratingDots.DealUnfold | ledtorus_anim.c:1086-1088 | one deal takes entry irand(num_left) and continues with the pool where the last entry fills its place |
| MigratingDots.DealAdvance | ledtorus_anim.c:1086-1088 | one step of the permute loop produces the next target of the deal and leaves the rest of the deal to the reduced pool |
| MigratingDots.DealPermutes | ledtorus_anim.c:1083-1088 | the targets dealt are a permutation of the pool |
| MigratingDots.RemoveAtDistinct | ledtorus_anim.c:1088 | removing an entry by moving the last one into its place keeps the pool distinct and drops exactly that entry |
| MigratingDots.DealDistinct | ledtorus_anim.c:1083-1088 | a distinct pool deals distinct targets drawn from the pool |
| MigratingDots.DealRowDistinct | ledtorus_anim.c:1080-1088 | each row's targets are distinct and lie in [0, 8) |
| MigratingDots.PlacedDot | ledtorus_anim.c:1087-1141 | a placed dot has its dealt target, a delay in [0, 12), the old new-colour as colour, lies on the start face and moves into the box |
| MigratingDots.RowPlacedExtend | ledtorus_anim.c:1084-1143 | placing dot j of row i extends the placed part of the row by one and changes no other dot |
| MigratingDots.RowStartSucc | ledtorus_anim.c:1074-1144 | each row consumes eight times (one plus the speed draw) rand() values |
| MigratingDots.RoundDots | ledtorus_anim.c:1073-1144 | a new round has 64 dots, dot n placed by row n / 8 and column n % 8 |
| MigratingDots.RoundRowsPermute | ledtorus_anim.c:1074-1144 | the targets of every row are a permutation of 0..7 |
| MigratingDots.RoundDistinct | ledtorus_anim.c:1089-1131 | no two dots of a new round start at the same position |
| MigratingDots.RoundLayout | ledtorus_anim.c:1054-1144 | in a new round every row's targets are a permutation of 0..7, every dot sits on the start face with a delay in [0, 12), and all positions are different |
| MigratingDots.SecondStageDot | ledtorus_anim.c:1040-1050 | a second-stage dot keeps its position and colours and gets the end face's level as target, a delay in [0, 12) and a speed towards the end face |
| MigratingDots.TruncDiv | ledtorus_anim.c:1197 | C's division truncates toward zero for either sign of the dividend |
| MigratingDots.DotColourBetween | ledtorus_anim.c:1194-1199 | the drawn colour always lies between the old and the new colour |
| MigratingDots.MigratingDotsState.constructor | ledtorus_anim.c:84-95 | a fresh zero-initialised state |
| MigratingDots.MigratingDotsState.Init | ledtorus_anim.c:1001-1015 | in_migrating_dots: end face 1, wait 1000000 (above the pause, so the next call starts a round), stage 2 pending, text index -5, every dot's new colour 15 |
| MigratingDots.MigratingDotsState.PlaceDot | ledtorus_anim.c:1089-1141 | dot n becomes PlacedDot of its old value; other dots unchanged |
| MigratingDots.MigratingDotsState.DealDot | ledtorus_anim.c:1086-1141 | one permute step: x is irand(num_left), the target is permute[x], the pool loses that entry, and the dot is placed with it |
| MigratingDots.MigratingDotsState.DealPlace | ledtorus_anim.c:1084-1143 | one pass of the inner loop keeps the deal and placement invariant |
| MigratingDots.MigratingDotsState.DealStep | ledtorus_anim.c:1084-1143 | one pass of the inner loop with its counters advanced |
| MigratingDots.MigratingDotsState.NewPermute | ledtorus_anim.c:1080-1082 | a fresh permute array holding 0..7 |
| MigratingDots.MigratingDotsState.DealLoop | ledtorus_anim.c:1083-1143 | the inner loop places the whole row as dealt |
| MigratingDots.MigratingDotsState.DealRow | ledtorus_anim.c:1076-1143 | row i's dots are placed with the row's deal, other dots unchanged |
| MigratingDots.MigratingDotsState.DealRound | ledtorus_anim.c:1073-1144 | every dot becomes its RoundDot |
| MigratingDots.MigratingDotsState.NewRound | ledtorus_anim.c:1054-1145 | stage 1 starts at the old end face, the new end face is the first draw on another axis, the text index advances, and all dots are laid out as RoundDots |
| MigratingDots.MigratingDotsState.PrepareDot | ledtorus_anim.c:1042-1049 | dot n becomes its SecondStageDot; other dots unchanged |
| MigratingDots.SecondStageDots | ledtorus_anim.c:1040-1050 | the stage 2 layout keeps the number of dots and prepares dot n with the draws from position k + n times the draws per dot |
| MigratingDots.MigratingDotsState.PrepareAll | ledtorus_anim.c:1040-1050 | every dot becomes its SecondStageDot, each drawing from its own position in the rand() stream |
| MigratingDots.MigratingDotsState.StartStage2 | ledtorus_anim.c:1036-1051 | stage 2 starts with every dot prepared; faces and text index unchanged |
| MigratingDots.MigratingDotsState.MoveDots | ledtorus_anim.c:1148-1182 | every dot takes one DotStep and moving is the count of dots still on their way |
| MigratingDots.StageClock | ledtorus_anim.c:1149 | the stage clock d = frame - base_frame: an int, congruent modulo 2^32 to the difference of the uint32_t frame and the base |
| MigratingDots.StageClockCounts | ledtorus_anim.c:1033-1149 | n frames after a flip the clock reads exactly n, across a wrap of the uint32_t frame counter too, for any stage shorter than 2^31 frames |
| MigratingDots.StageClockAcrossWrap | ledtorus_anim.c:1033-1149 | a flip at frame 2^32 - 3 stores base_frame -3, and at frame 2 the clock reads 5, so the dots keep moving after the wrap |
| MigratingDots.MigratingDotsState.FlipToStage2 | ledtorus_anim.c:1031-1051 | at the end of stage 1's pause: base frame set to the uint32_t frame converted to int and wait reset, stage 2 begins, faces and text index stay, and every dot is prepared for stage 2, each drawing from its own position in the rand() stream |
| MigratingDots.MigratingDotsState.FlipToRound | ledtorus_anim.c:1031-1145 | at the end of stage 2's pause: base frame set to the uint32_t frame converted to int and wait reset and a new round begins (RoundFlipped: start at the old end face, end face the first draw on another axis, earlier draws all on the start axis, text index advanced, every dot its RoundDot) |
| MigratingDots.MigratingDotsState.Tick | ledtorus_anim.c:1019-1185 | the state part of an_migrating_dots: after the pause it flips the stage, with the faces, text index, rand() position and intermediate dots of a new round (RoundFlipped) or of stage 2 (Stage2Flipped), and keeps them all otherwise; then every dot takes one DotStep at the stage clock StageClock(frame, base_frame), the uint32_t difference stored in an int as at ledtorus_anim.c:1149, and wait is incremented exactly when no dot moved |
| MigratingDots.IsFace | ledtorus_anim.c:89-90 | a face number 0 .. 5: bottom/top, inner/outer, front/back |
| MigratingDots.Coord | ledtorus_anim.c:1156-1168 | the coordinate a dot moves along for a face: z for faces 0 and 1, x for 2 and 3, y for 4 and 5 |
| MigratingDots.FaceLevel | ledtorus_anim.c:1089 | the coordinate of a face on its own axis: (MIG_SIDE - 1) * (face % 2) |
| MigratingDots.OtherAxisAhead | ledtorus_anim.c:1063-1065 | the rand() stream still holds, from a position on, an irand(6) draw on an axis other than the start face's, so the do-while choosing the end face ends |
| MigratingDots.SameAxisRun | ledtorus_anim.c:1063-1065 | the irand(6) draws at a run of positions all lie on the start face's axis: the do-while rejects each of them |
| MigratingDots.SameAxisRunExtend | ledtorus_anim.c:1063-1065 | one more draw on the start face's axis lengthens a rejected run by one |
| MigratingDots.StartPos | ledtorus_anim.c:1089-1131 | a dot's start position: the start face's own coordinate at its level m, the other two the row i and column j, ordered by the end face's axis |
| MigratingDots.StartSpeed | ledtorus_anim.c:1136-1141 | the start speed: 0 from the top face, 2 + v_range from the bottom, otherwise (1 - 2*(start%2)) * (v_min + drand(v_range)) |
| MigratingDots.StartSpeedDraws | ledtorus_anim.c:1136-1141 | whether the start speed draws drand(v_range): only when starting on a side face (2 .. 5) |
| MigratingDots.EndSpeed | ledtorus_anim.c:1043-1048 | the stage-2 speed: 0 towards the bottom, 2 + drand(v_range) towards the top, otherwise (2*(end%2) - 1) * (v_min + drand(v_range)) |
| MigratingDots.Upward | ledtorus_anim.c:1171-1172 | a dot moves towards the far end of its axis: plane % 2 != stage1, the test that chooses >= or <= against the target |
| MigratingDots.DrawCellAsWritten | ledtorus_anim.c:1200-1221 | the drawn cell (x, z) exactly as the clamping code writes it, including the vertical branch that moves the innermost column to row LEDS_Y - 2 (DrawCellAsWrittenHitsGap) |
| MigratingDots.DotDraws | ledtorus_anim.c:1132-1141 | the rand() values a dot of a new round draws after its target: one for the delay, one more for the speed unless it starts on the bottom or top face |
| MigratingDots.DelayDraw | ledtorus_anim.c:1086-1132 | the rand() position of dot j's delay draw within a row: its target pick, then the dot's earlier draws |
| MigratingDots.RowPlaced | ledtorus_anim.c:1084-1143 | dots 0 .. j-1 of row i hold their PlacedDot values for the round, the targets dealt so far and the rand() positions used, every other dot as before |
| MigratingDots.RowStart | ledtorus_anim.c:1073-1144 | the first rand() position row i of a round uses: the round's start plus the draws of the rows before it |
| MigratingDots.RoundDot | ledtorus_anim.c:1074-1144 | dot n (row n / 8, column n % 8) after a new round: its dealt target, StartPos, delay, colours and StartSpeed |
| MigratingDots.SecondStageDraws | ledtorus_anim.c:1042-1048 | the rand() values a dot draws when stage 2 starts: the delay, and the speed unless the end face is the bottom |
| MigratingDots.DotColour | ledtorus_anim.c:1194-1199 | a dot's colour d frames into a stage: col in stage 1; in stage 2 col + (new_col - col)*d/delay with C's truncating division while waiting, then new_col (DotColourBetween proves it stays between the two) |
| MigratingDots.RoundFlipped | ledtorus_anim.c:1054-1145 | the state after a new round: start face the old end face, end face the first irand(6) draw on another axis, text index advanced, every dot its RoundDot |
| MigratingDots.Stage2Flipped | ledtorus_anim.c:1036-1051 | the state after the start of stage 2: faces and text index kept, every dot prepared towards the end face (SecondStageDot), drawing in dot order |
| MigratingDots.MigratingDotsState.Valid | ledtorus_anim.c:84-95 | the state invariant: MIG_SIDE*MIG_SIDE dots, both planes faces, stage1 0 or 1 |
| MigratingDots.MigratingDotsState.RowDealt | ledtorus_anim.c:1084-1143 | the dots array satisfies RowPlaced for row i after j dots |
| AnimHelpers.Slot2Index | ledtorus2_anim.h:22-30 | with the second display's constants, setpix's slot is y + 16 x + 224 a |
| AnimHelpers.GlyphBase | ledtorus2_anim.c:330-332 | a character's glyph starts at 8 (ch - 32) in the font table; characters outside 32..127 use the glyph of '?' |
| AnimHelpers.StepBack | ledtorus2_anim.c:347-350 | stepping back one angle stays in [0, LEDS_TANG) and equals (a - 1) mod LEDS_TANG |
| AnimHelpers.StepBackCounts | ledtorus2_anim.c:347-350 | n + 1 backward steps from a0 land at (a0 - (n + 1)) mod LEDS_TANG |
| AnimHelpers.TextPaintedTrans | ledtorus2_anim.c:325-358 | painting text in plane x twice is still painting text in plane x |
| AnimHelpers.DrawColumn | ledtorus2_anim.c:341-345 | one column: the rows 0..7 whose font bit is set get (r, g, b), every other byte is unchanged |
| AnimHelpers.ColumnLitInBand | ledtorus2_anim.c:341-345 | a slot lit by a column lies in plane x in rows 0..7 |
| AnimHelpers.ColumnPaintsBand | ledtorus2_anim.c:341-345 | a column only paints the text band of plane x |
| AnimHelpers.DrawGlyph | ledtorus2_anim.c:334-357 | one glyph takes at least eight columns, each a step back round the torus, and only paints the text band; at scale 1 it takes exactly eight and keeps sofar at 0.5 |
| AnimHelpers.GText | ledtorus2_anim.c:311-361 | g_text returns a unchanged and draws nothing for s_fact < 0.01; otherwise it steps back at least 8 columns per character (exactly 8 for s_fact up to 1) and only paints the text band of plane x |
| AnimHelpers.InnerEdge | ledtorus2_anim.c:386-390 | the inner edge lies in [0, 5]: 0 in the middle rows 7 and 8, 5 in the end rows 0 and 15 |
| AnimHelpers.InnerEdgeMirror | ledtorus2_anim.c:386-390 | the inner edge is symmetric about the middle of the column |
| AnimHelpers.EnvelopeCellInBox | ledtorus2_anim.c:380-400 | every outline cell lies on the second display |
| AnimHelpers.EnvelopeBlue | ledtorus2_anim.c:372-377 | the outline blue is between 17 and 47, and 17 outside the first 32 frames of every 128 |
| AnimHelpers.PaintBlue | ledtorus2_anim.c:391-397 | one blue setpix adds its slot to the blue part of the frame |
| AnimHelpers.OutlineStep | ledtorus2_anim.c:382-399 | pass (a, i) adds exactly the inner and outer edge of row i and, for i below 7, cell 12 - i of the bottom and top rows |
| AnimHelpers.OutlineStepNew | ledtorus2_anim.c:382-399 | the slots after pass (a, i) are among those before it and those it writes |
| AnimHelpers.OutlineStepOld | ledtorus2_anim.c:382-399 | the slots written before pass (a, i) are still written after it |
| AnimHelpers.OutlineStepPass | ledtorus2_anim.c:382-399 | the slots pass (a, i) writes are among those written after it |
| AnimHelpers.OutlineNextAngle | ledtorus2_anim.c:380-382 | finishing the rows of angle a is starting angle a + 1 |
| AnimHelpers.OutlineMembers | ledtorus2_anim.c:380-400 | a slot is on the outline exactly when its cell is an outline cell |
| AnimHelpers.EnvelopePass | ledtorus2_anim.c:384-398 | one pass of the inner loop extends the blue outline by that pass's cells |
| AnimHelpers.Envelope | ledtorus2_anim.c:365-401 | envelope clears the frame and leaves the outline blue at every angle, everything else black, and returns the blue level |
| AnimHelpers.Pure | ledtorus2_anim.c:731-733 | a pure colour has 255 on exactly one channel and 0 on the others |
| AnimHelpers.RotatePure | ledtorus2_anim.c:740 | rotating pure red n times gives the pure colour n mod 3, with period three |
| AnimHelpers.PureRotates | ledtorus2_anim.c:740 | one rotation moves the pure channel on by one |
| AnimHelpers.Test3SlotsStep | ledtorus2_anim.c:737-739 | pass n adds the slots of rows 4, 8 and 12 of plane 13 at angle 3 n |
| AnimHelpers.Test3Extend | ledtorus2_anim.c:734-741 | the writes of pass n with that pass's colour extend the picture of n passes to n + 1 |
| AnimHelpers.Test3ExtendLit | ledtorus2_anim.c:737-739 | the lit slots of earlier passes keep their colours and the new ones get theirs |
| AnimHelpers.Test3ExtendDark | ledtorus2_anim.c:737-739 | every byte outside the lit slots stays 0 |
| AnimHelpers.Test3 | ledtorus2_anim.c:725-744 | an_test3 leaves rows 4, 8 and 12 of plane 13 at angles 0, 3, 6, 9 in rotating pure colours and every other byte 0 |
| AnimHelpers.Test3Angle | ledtorus2_anim.c:737-739 | one pass writes (r, g, b), (b, r, g) and (g, b, r) to rows 4, 8 and 12 of plane 13 and nothing else |
| AnimHelpers.ClampRow | ledtorus2_anim.c:467-470 | y is clamped to [0, LEDS_Y - 1], unchanged inside |
| AnimHelpers.GraphRow | ledtorus2_anim.c:477 | y_int is the floor of the clamped height, a row in [0, 16) |
| AnimHelpers.GraphPoint | ledtorus2_anim.c:474-484 | the anti-aliased point writes row y_int, and the row above when y_int < LEDS_Y - 1, and nothing else |
| AnimHelpers.Component | ledtorus2_anim.h:26-29 | component c of the colour setpix stores: p[0] = r, p[1] = g, p[2] = b |
| AnimHelpers.Slot2 | ledtorus2_anim.h:26 | the slot of (x, y, a) on the second display: y + x*16 + a*224 (Slot2Index ties it to SlotIndex) |
| AnimHelpers.SlotHolds | ledtorus2_anim.h:26-29 | the slot of (x, y, a) holds exactly the colour (r, g, b) |
| AnimHelpers.FontBit | ledtorus2_anim.c:343 | the test font_p[y] & bit_pos, with bit_pos = 0x80 >> bit |
| AnimHelpers.InTextBand | ledtorus2_anim.c:341-344 | a slot lies in radial plane x in one of the eight text rows g_text writes |
| AnimHelpers.TextPainted | ledtorus2_anim.c:325-358 | every byte is unchanged or the colour component of a slot in the text band of plane x: all g_text may write |
| AnimHelpers.ColumnLit | ledtorus2_anim.c:341-345 | a slot is lit by one glyph column: row y < 8 of plane x at angle a with font bit set |
| AnimHelpers.EnvelopeCell | ledtorus2_anim.c:382-399 | cell (x, y) is written by the first n passes of envelope's inner loop: the inner edge and x = 13 of rows below n, and the top and bottom rows from x = 12 down to 12 - (n - 1), at most seven |
| AnimHelpers.OutlineSlots | ledtorus2_anim.c:380-399 | the slots envelope has written before pass (a, i): the outline of every earlier angle and of the first i rows at angle a |
| AnimHelpers.Outline | ledtorus2_anim.c:380-400 | the slots of the whole outline at every angle |
| AnimHelpers.BlueOn | ledtorus2_anim.c:379-397 | the frame holds blue c_b in the slots of a set and zero in every other byte |
| AnimHelpers.PassSlots | ledtorus2_anim.c:386-398 | the cells one pass (a, i) writes: inner edge and x = 13 of row i, and for i < 7 the cells (12 - i, 0) and (12 - i, 15) |
| AnimHelpers.Rotate | ledtorus2_anim.c:740 | one colour rotation tmp = b; b = g; g = r; r = tmp, i.e. (r, g, b) becomes (b, r, g) |
| AnimHelpers.RotateN | ledtorus2_anim.c:734-740 | the colour after n rotations (RotatePure relates it to the pure colours) |
| AnimHelpers.Test3Slots | ledtorus2_anim.c:734-739 | the slots an_test3's first n passes write: plane LEDS_X - 1 = 13, rows 4, 8, 12, angle 3t |
| AnimHelpers.Test3Holds | ledtorus2_anim.c:737-739 | row 4j at angle 3t holds the pure colour (t + j - 1) % 3 |
| AnimHelpers.Test3Lit | ledtorus2_anim.c:734-741 | every slot of the first n passes holds its pure colour |
| AnimHelpers.Test3Dark | ledtorus2_anim.c:730-741 | every byte outside the slots of the first n passes is 0, as cls left it |
| AnimHelpers.Test3Drawn | ledtorus2_anim.c:730-741 | the frame after n passes of an_test3: Test3Lit and Test3Dark |
| AnimHelpers.Test3PassWritten | ledtorus2_anim.c:737-739 | one pass at angle i: (r, g, b) in row 4, (b, r, g) in row 8, (g, b, r) in row 12 of plane 13, no other byte changed |
| LedTorusView.KeptInColumn | ledtorus.cpp:102-104 | the number of LEDs column i has is the number of rows the corner test does not skip |
| LedTorusView.FortyEightPerStep | ledtorus.cpp:95-104 | one angular step has 48 LEDs |
| LedTorusView.Mesh.constructor | ledtorus.cpp:35-37 | the base mesh starts with no vertices, normals or faces |
| LedTorusView.Mesh.AddFace | ledtorus.cpp:41-54 | add_face appends the three corners, the face normal three times, and the indices of the three new vertices |
| LedTorusView.Mesh.AddFaces | ledtorus.cpp:72-83 | a run of add_face calls appends all corners, one normal per corner, and consecutive indices |
| LedTorusView.Mesh.BuildBase | ledtorus.cpp:63-83 | the red base appends its 36 corners (12 triangles), their normals, and the indices 0..35 after the existing vertices |
| LedTorusView.FaceNormals | ledtorus.cpp:44-53 | the normals of t faces, three per face |
| LedTorusView.FacesExtend | ledtorus.cpp:41-54 | one more add_face extends vertices, normals and faces by the next face |
| LedTorusView.PrefixExtend | ledtorus.cpp:72-83 | the first k + 3 corners are the first k and the next three |
| LedTorusView.RunExtend | ledtorus.cpp:45-52 | three more consecutive indices extend the index run |
| LedTorusView.IndexRun | ledtorus.cpp:45-52 | the indices add_face writes, one per vertex |
| LedTorusView.IndexRunAt | ledtorus.cpp:45-52 | entry n of the run starting at b is b + n |
| LedTorusView.LinePairsBounds | ledtorus.cpp:112-113 | the first q slots write an even number of indices, at most 2 q, each below q + N |
| LedTorusView.LinePairsArePairs | ledtorus.cpp:105-113 | index pair n joins an existing LED's slot to the same slot in the end half |
| LedTorusView.KeptAt | ledtorus.cpp:102-105 | slot j + 8 i + 56 k exists exactly when LED (i, j) is not a skipped corner |
| LedTorusView.LinePairsNext | ledtorus.cpp:102-113 | the same count, stated for an explicit successor slot q' = q + 1 |
| LedTorusView.LinePairsSucc | ledtorus.cpp:102-113 | each slot adds two indices when its LED exists and none otherwise |
| LedTorusView.KeptBelowColumn | ledtorus.cpp:99-104 | counting the kept rows of a whole column gives KeptInColumn |
| LedTorusView.LinePairsWithinColumn | ledtorus.cpp:99-113 | the first j rows of column i add two indices per kept row |
| LedTorusView.ColumnStep | ledtorus.cpp:99-113 | one row of a column adds two indices exactly when its LED exists |
| LedTorusView.LinePairsWithinStep | ledtorus.cpp:95-113 | the first i columns of a step add two indices per kept LED |
| LedTorusView.KeptColumnsFull | ledtorus.cpp:95-104 | all seven columns together keep 48 LEDs |
| LedTorusView.LinePairsPerStep | ledtorus.cpp:90-113 | k angular steps write 96 k indices |
| LedTorusView.LineIndexCount | ledtorus.cpp:90-123 | the torus writes 96 * 335 indices, fewer than the 2 N in cnt_torus_lines, and every index fits uint16_t |
| LedTorusView.TestColour | ledtorus.cpp:116-118 | each test colour component fits a byte |
| LedTorusView.Scale | ledtorus.cpp:116-118 | x * 255 / n fits a byte for 0 <= x <= n |
| LedTorusView.ScaleBound | ledtorus.cpp:116-118 | x * 255 / n lies in [0, 255] for 0 <= x <= n |
| LedTorusView.TorusGeometry.constructor | ledtorus.cpp:25-32 | the zero-filled static buffers, with no torus lines |
| LedTorusView.TorusGeometry.EmitVertices | ledtorus.cpp:106-111 | the start and end vertex of slot idx are written |
| LedTorusView.TorusGeometry.EmitStart | ledtorus.cpp:106-108 | the start vertex of slot idx is written; the end half is untouched |
| LedTorusView.TorusGeometry.EmitEnd | ledtorus.cpp:109-111 | the end vertex of slot idx is written in the second half |
| LedTorusView.TorusGeometry.EmitIndices | ledtorus.cpp:112-113 | the index pair (idx, idx + N) is appended |
| LedTorusView.TorusGeometry.EmitColour | ledtorus.cpp:116-118 | slot idx gets its test colour |
| LedTorusView.TorusGeometry.EmitLed | ledtorus.cpp:105-118 | an existing LED's vertices, index pair and colour are written |
| LedTorusView.TorusGeometry.SkipLed | ledtorus.cpp:102-104 | a skipped corner leaves every buffer unchanged |
| LedTorusView.TorusGeometry.VisitLed | ledtorus.cpp:101-119 | one pass of the innermost loop extends the built buffers by one slot |
| LedTorusView.TorusGeometry.VisitColumn | ledtorus.cpp:95-120 | one column extends the built buffers by eight slots |
| LedTorusView.TorusGeometry.VisitStep | ledtorus.cpp:90-121 | one angular step extends the built buffers by 56 slots |
| LedTorusView.TorusGeometry.BuildTorus | ledtorus.cpp:85-123 | every existing LED has its start vertex, end vertex and test colour, the index list holds their pairs in slot order, everything else is untouched, and cnt_torus_lines is 2 N |
| LedTorusView.TorusGeometry.DrawLedTorus | ledtorus.cpp:127-142 | draw_ledtorus copies the first half of framebuf onto the second and takes and releases the current frame, leaving the frame slots as they were |
| LedTorusView.Skipped | ledtorus.cpp:102-103 | the corners missing from the 7 x 8 cross-section: i == 0 with j < 2 or j > 5, or i in {1, 6} with j in {0, 7} |
| LedTorusView.Kept | ledtorus.cpp:102-105 | the LED at slot q exists: its (i, j) = (q / 8 % 7, q % 8) is not Skipped |
| LedTorusView.Mesh.Valid | ledtorus.cpp:35-54 | the mesh invariant: one normal per vertex and every face index names a vertex |
| LedTorusView.LinePairs | ledtorus.cpp:105-113 | the line indices written for slots 0 .. q-1 in loop order: the pair (q, q + LEDS_X*LEDS_Y*LEDS_TANG) for each existing LED |
| LedTorusView.KeptBelow | ledtorus.cpp:99-104 | the existing LEDs of column i among heights 0 .. j-1 |
| LedTorusView.KeptColumns | ledtorus.cpp:95-104 | the existing LEDs of columns 0 .. i-1 |
| LedTorusView.StartVertex | ledtorus.cpp:106-108 | component c of slot q's start vertex: the vertex at angle step k = q / 56 for column q / 8 % 7 and height q % 8 |
| LedTorusView.EndVertex | ledtorus.cpp:109-111 | component c of slot q's end vertex: the same LED at angle step k + 1 |
| LedTorusView.TorusGeometry.Valid | ledtorus.cpp:25-32 | the buffer sizes: framebuf and torus_line_vertices 6*N, torus_line_indices 2*N, N = LEDS_X*LEDS_Y*LEDS_TANG |
| LedTorusView.TorusGeometry.IndicesBuilt | ledtorus.cpp:89-113 | torus_line_indices after slots 0 .. q-1: LinePairs(q), then the untouched rest |
| LedTorusView.TorusGeometry.ColoursBuilt | ledtorus.cpp:115-118 | framebuf's first half after slots 0 .. q-1: the test colour of every existing LED among them, everything else as before |
| LedTorusView.TorusGeometry.StartsBuilt | ledtorus.cpp:106-108 | the start vertices after slots 0 .. q-1: StartVertex for every existing LED among them, everything else as before |
| LedTorusView.TorusGeometry.EndsBuilt | ledtorus.cpp:109-111 | the end vertices after slots 0 .. q-1: EndVertex for every existing LED among them, everything else as before |
| LedTorusView.TorusGeometry.Built | ledtorus.cpp:88-119 | all three buffers after slots 0 .. q-1 with p indices written |
| PlyHeader.LeBytes | stanford_ply_loader.c:54-58 | a little-endian writer lays a word out as four bytes |
| PlyHeader.LeWordOfBytes | stanford_ply_loader.c:54-58 | read_uint's assembly of the four bytes a writer lays out gives the word back |
| PlyHeader.LeBytesOfWord | stanford_ply_loader.c:54-58 | laying out the assembled word gives the four bytes back |
| PlyHeader.FiniteBelowInfinity | stanford_ply_loader.c:25-29 | isfinite holds for a binary32 pattern exactly when its magnitude bits are below the infinity pattern |
| PlyHeader.LineEnd | stanford_ply_loader.c:103 | fgets into a 256-byte buffer reads at least one and at most 255 bytes |
| PlyHeader.LineEndFrom | stanford_ply_loader.c:103 | the scan for the line end stays within 255 bytes of the start |
| PlyHeader.LineEndFromSpec | stanford_ply_loader.c:103 | the scan stops after a newline, at the end of the file or after 255 bytes, and passes no newline before |
| PlyHeader.LineEndSpec | stanford_ply_loader.c:103 | fgets stops after the first newline, at the end of the file or when the buffer is full |
| PlyHeader.NulIndex | stanford_ply_loader.c:108 | the index of the first NUL lies within the string |
| PlyHeader.NulIndexSpec | stanford_ply_loader.c:108 | it is the first NUL, or the end |
| PlyHeader.CStringSpec | stanford_ply_loader.c:108 | the C string strcmp and sscanf see is the longest NUL-free prefix of the buffer |
| PlyHeader.ScanReturn | stanford_ply_loader.c:110-116 | sscanf returns 1 exactly when %d was assigned and EOF (-1) exactly on an input failure before any conversion |
| PlyHeader.SkipSpace | stanford_ply_loader.c:110-116 | a white-space directive skips forward, staying within the string |
| PlyHeader.SkipSpaceSpec | stanford_ply_loader.c:110-116 | it skips exactly the run of white space |
| PlyHeader.DigitRun | stanford_ply_loader.c:110-116 | the digits of %d stay within the string |
| PlyHeader.DigitRunSpec | stanford_ply_loader.c:110-116 | %d takes exactly the run of digits |
| PlyHeader.MatchLiteral | stanford_ply_loader.c:110-116 | matching a literal moves forward within the string |
| PlyHeader.MatchLiteralSpec | stanford_ply_loader.c:110-116 | a literal matches exactly when the input holds it; it is an input failure exactly when the input ends inside a matching prefix |
| PlyHeader.DigitValue | stanford_ply_loader.c:110-116 | the value of a decimal digit |
| PlyHeader.ScanLiteralStep | stanford_ply_loader.c:110-116 | a matched literal lets sscanf go on with the rest of the format |
| PlyHeader.ScanSpaceStep | stanford_ply_loader.c:110-116 | a space in the format skips the input's white space |
| PlyHeader.ElementPrefixMatches | stanford_ply_loader.c:110-116 | "element <kind>" at the start of the line matches the format's literals |
| PlyHeader.ScanElementPrefix | stanford_ply_loader.c:110-116 | after "element <kind>" the result is that of %d on the rest |
| PlyHeader.ScanElementOtherKind | stanford_ply_loader.c:110-116 | an element line of the other kind is a matching failure (sscanf returns 0) |
| PlyHeader.ScanIntDigits | stanford_ply_loader.c:110-116 | %d on a run of digits assigns their decimal value |
| PlyHeader.Decimal | stanford_ply_loader.c:110-116 | the decimal text of a count has at least one digit |
| PlyHeader.DecimalSpec | stanford_ply_loader.c:110-116 | the decimal text is all digits and reads back as the number |
| PlyHeader.DigitChar | stanford_ply_loader.c:110-116 | the digit character of d reads back as d |
| PlyHeader.ScanElementWithoutCount | stanford_ply_loader.c:110-116 | "element <kind>" followed only by white space is an input failure: sscanf returns EOF |
| PlyHeader.ScanElementCount | stanford_ply_loader.c:110-116 | "element <kind> <n>\n" assigns n |
| PlyHeader.CountNeverRejected | stanford_ply_loader.c:111-120 | the range test n <= 0 && n >= 1e8 never rejects a count |
| PlyHeader.HeaderLineChanges | stanford_ply_loader.c:110-122 | a header line never fails, and a count changes only to a value %d assigned from that line |
| PlyHeader.HeaderLineWithoutCount | stanford_ply_loader.c:110-115 | on "element vertex\n" the code as written stores the stale n as the vertex count; the corrected test leaves the counts alone |
| PlyHeader.NoNulString | stanford_ply_loader.c:108 | a buffer without NUL is its own C string |
| PlyHeader.HeaderStepAt | stanford_ply_loader.c:100-122 | one header line moves forward within the file |
| PlyHeader.HeaderStepDone | stanford_ply_loader.c:108-109 | the loop stops exactly after an "end_header\n" line |
| PlyHeader.HeaderFromSpec | stanford_ply_loader.c:97-142 | a successful header loop ends right after "end_header\n" |
| PlyHeader.EndHeaderAt | stanford_ply_loader.c:108 | a line read as "end_header\n" is exactly those 11 bytes |
| PlyHeader.CStringLine | stanford_ply_loader.c:103-108 | a line read as a newline-terminated text is exactly that text in the file |
| PlyHeader.ParseHeaderSpec | stanford_ply_loader.c:86-146 | an accepted header starts with "ply\n", has both counts non-negative and ends with "end_header\n" |
| PlyHeader.MagicLine | stanford_ply_loader.c:86-95 | a first line read as "ply\n" is the first four bytes |
| PlyHeader.LineAt | stanford_ply_loader.c:103 | a plain line in the file is read whole by fgets |
| PlyHeader.HeaderStepContinues | stanford_ply_loader.c:108-122 | a line other than "end_header\n" updates the counts and moves to the next line |
| PlyHeader.HeaderStepEnds | stanford_ply_loader.c:108-109 | an "end_header\n" line ends the loop |
| PlyHeader.HeaderFromDone | stanford_ply_loader.c:108-109 | the loop returns the counts at the end_header line |
| PlyHeader.HeaderFromEnd | stanford_ply_loader.c:108-109 | "end_header\n" at the current position ends the loop with the counts so far |
| PlyHeader.DecimalLength | stanford_ply_loader.c:110-116 | a number below 10^k has at most k digits |
| PlyHeader.ElementLinePlain | stanford_ply_loader.c:103-122 | an element line of a count below 2^31 fits the buffer and is not "end_header\n" |
| PlyHeader.ElementLineBytes | stanford_ply_loader.c:103 | an element line holds no NUL and no newline before its last byte |
| PlyHeader.ElementLineHead | stanford_ply_loader.c:110-116 | an element line starts with "element " and the kind |
| PlyHeader.ElementLineStep | stanford_ply_loader.c:110-121 | an element line of a count below 2^31 sets that count |
| PlyHeader.HeaderFromContinues | stanford_ply_loader.c:100-142 | after a non-final line the loop continues from the next line with the updated counts |
| PlyHeader.ElementLineAt | stanford_ply_loader.c:103-121 | an element line in the file is read whole and sets its count |
| PlyHeader.HeaderFromElement | stanford_ply_loader.c:100-142 | the loop passes over an element line, setting its count |
| PlyHeader.MagicPlain | stanford_ply_loader.c:91 | "ply\n" is a plain line and its own C string |
| PlyHeader.EndHeaderPlain | stanford_ply_loader.c:108 | "end_header\n" is a plain line and its own C string |
| PlyHeader.MagicAt | stanford_ply_loader.c:86-95 | a file starting with "ply\n" passes the magic test |
| PlyHeader.ParseHeaderAccepts | stanford_ply_loader.c:86-146 | the magic line, a successful loop and non-negative counts make the header accepted |
| PlyHeader.ParseHeaderMagic | stanford_ply_loader.c:86-146 | the same, for a file that starts with the four magic bytes |
| PlyHeader.ParseHeaderText | stanford_ply_loader.c:86-146 | the header a writer produces for counts below 2^31 is accepted with those counts, ending where the body starts |
| PlyHeader.ParseHeaderLines | stanford_ply_loader.c:86-146 | the magic line, two element lines and the end line are accepted with the two counts |
| PlyHeader.HeaderChain | stanford_ply_loader.c:97-146 | chaining loop steps up to the end line gives the accepted header |
| PlyHeader.LeWord | stanford_ply_loader.c:54-58 | read_uint's little-endian assembly of four bytes: b0 | b1 << 8 | b2 << 16 | b3 << 24 (LeWordOfBytes, LeBytesOfWord invert it) |
| PlyHeader.WordAt | stanford_ply_loader.c:49-58 | the word read_uint returns at a byte offset of the file |
| PlyHeader.ExponentField | stanford_ply_loader.c:21-25 | the biased exponent field, bits 23 to 30, of the binary32 value the bytes pun to |
| PlyHeader.IsFinite | stanford_ply_loader.c:25-29 | isfinite() on that value: its exponent field is not all ones (FiniteBelowInfinity) |
| PlyHeader.CString | stanford_ply_loader.c:108 | the C string strcmp sees in the buffer: the bytes before the first NUL (CStringSpec) |
| PlyHeader.IsSpace | stanford_ply_loader.c:110 | isspace() in the C locale, which a space in a scanf format and %d skip |
| PlyHeader.IsDigit | stanford_ply_loader.c:110 | a decimal digit, as %d reads them |
| PlyHeader.DecimalValue | stanford_ply_loader.c:110 | the value of a run of decimal digits, most significant first (DecimalSpec) |
| PlyHeader.ScanInt | stanford_ply_loader.c:110 | the %d conversion: skip white space; input failure at the end; otherwise an optional sign and at least one digit, else a matching failure (ScanIntDigits) |
| PlyHeader.ScanFormat | stanford_ply_loader.c:110-116 | sscanf's result on a format whose only conversion is last: EOF when the input ends before the first conversion, 0 on a mismatch, 1 with the value |
| PlyHeader.ElementFormat | stanford_ply_loader.c:110-116 | the format string "element <kind> %d" |
| PlyHeader.ScanElement | stanford_ply_loader.c:110-116 | sscanf(buf, "element <kind> %d", &n): its return value and the count when one was assigned (ScanElementCount, ScanElementOtherKind, ScanElementWithoutCount) |
| PlyHeader.ElementLine | stanford_ply_loader.c:126-139 | the header line a PLY writer emits for an element with n entries |
| PlyHeader.CountRejected | stanford_ply_loader.c:111-120 | the range test n <= 0 && n >= 1e8, which no count meets (CountNeverRejected) |
| PlyHeader.HeaderLine | stanford_ply_loader.c:110-121 | one header line that is not end_header with the scan result compared against 1: a vertex or face count is stored only when %d assigned it (HeaderLineChanges) |
| PlyHeader.HeaderLineAsWritten | stanford_ply_loader.c:110-121 | the same line as written: sscanf's result used as a truth value, so EOF (-1) counts as a match and stores the stale n (HeaderLineWithoutCount) |
| PlyHeader.HeaderFrom | stanford_ply_loader.c:100-142 | the header loop from an offset: the counts and the offset after end_header, or None when fgets fails first |
| PlyHeader.ParseHeader | stanford_ply_loader.c:86-146 | load_ply's header: first line exactly "ply\n", loop to end_header, both counts seen; the counts and the first body offset, or None (ParseHeaderSpec, ParseHeaderAccepts) |
| PlyHeader.HeaderText | stanford_ply_loader.c:86-146 | the header a writer emits: "ply\n", one element line per kind, "end_header\n" |
| PlyHeader.PlainLine | stanford_ply_loader.c:103-108 | a header line fgets returns whole and strcmp compares: 1 to 255 bytes, no NUL, its only newline at the end |
| PlyBody.Words | stanford_ply_loader.c:213-217 | k words read from a byte offset, one per read_uint |
| PlyBody.WordsSpec | stanford_ply_loader.c:213-217 | word j is the little-endian word at offset at + 4 j |
| PlyBody.ConcatLast | stanford_ply_loader.c:178-218 | the records read so far are followed by the last one |
| PlyBody.ConcatLength | stanford_ply_loader.c:178-198 | records of one width take width times count bytes |
| PlyBody.ConcatAt | stanford_ply_loader.c:178-198 | record i of a uniform run sits at offset width * i |
| PlyBody.ConcatPart | stanford_ply_loader.c:200-218 | record i of a run sits between its offset and the next one |
| PlyBody.PartPlaced | stanford_ply_loader.c:200-218 | a run of records in the file puts record i at its offset |
| PlyBody.PrefixSlice | stanford_ply_loader.c:178-218 | a slice of a prefix is a slice of the whole |
| PlyBody.EncodeWords | stanford_ply_loader.c:54-58 | a writer's little-endian words take four bytes each |
| PlyBody.WordParts | stanford_ply_loader.c:54-58 | one four-byte record per word |
| PlyBody.WordAtEncoded | stanford_ply_loader.c:50-58 | read_uint of a written word gives the word back |
| PlyBody.WordsEncoded | stanford_ply_loader.c:213-217 | reading written words gives the words back |
| PlyBody.SubSlice | stanford_ply_loader.c:178-218 | a piece of a record in the file is at the record's offset plus the piece's |
| PlyBody.SliceOf | stanford_ply_loader.c:178-218 | a slice of a record in the file is the record's slice |
| PlyBody.VerticesSpec | stanford_ply_loader.c:178-198 | the vertex loop succeeds exactly when every vertex record reads, and then holds n vertices, vertex i from record i |
| PlyBody.EncodeVertex | stanford_ply_loader.c:178-198 | a writer's vertex record is 36 bytes: eight floats and four colour bytes |
| PlyBody.VertexEncoded | stanford_ply_loader.c:182-197 | reading a written record gives the vertex back when all eight floats are finite, and fails otherwise |
| PlyBody.EncodeVertices | stanford_ply_loader.c:178-198 | n records take 36 n bytes |
| PlyBody.VertexParts | stanford_ply_loader.c:178-198 | one 36-byte record per vertex |
| PlyBody.VerticesEncoded | stanford_ply_loader.c:178-198 | reading written vertices with finite floats gives them back |
| PlyBody.VertexNoEncoded | stanford_ply_loader.c:178-198 | vertex i reads back from record i |
| PlyBody.FiniteFloats | stanford_ply_loader.c:25-29 | a vertex with finite position and normal, written with s = t = 0, has all eight floats finite |
| PlyBody.FaceListLength | stanford_ply_loader.c:205-217 | a face list read holds its length byte first and then that many indices |
| PlyBody.CountOf | stanford_ply_loader.c:205 | the list length fits the uchar a writer stores |
| PlyBody.EncodeFace | stanford_ply_loader.c:205-217 | a writer's face record is the length byte and four bytes per index |
| PlyBody.FaceEncoded | stanford_ply_loader.c:205-217 | reading a written face gives back its list with the length first, and moves past the record |
| PlyBody.FaceAtWords | stanford_ply_loader.c:205-217 | a length byte followed by that many words reads as that list |
| PlyBody.FaceParts | stanford_ply_loader.c:200-218 | one record per face |
| PlyBody.FaceLists | stanford_ply_loader.c:211-216 | one stored list per face |
| PlyBody.FacesEncoded | stanford_ply_loader.c:200-218 | reading written faces gives back their lists and ends after the last record |
| PlyBody.FaceOffsets | stanford_ply_loader.c:200-218 | the offsets of the face records, from the first to just past the last |
| PlyBody.FacesUpTo | stanford_ply_loader.c:200-218 | reading the first k faces, each from its offset, gives their lists |
| PlyBody.TakeAll | stanford_ply_loader.c:200-218 | taking all faces read is all of them |
| PlyBody.TakeSnoc | stanford_ply_loader.c:200-218 | the first k faces are the first k - 1 and face k - 1 |
| PlyBody.FacesSnoc | stanford_ply_loader.c:200-218 | one more face read appends its list |
| PlyBody.FaceNoEncoded | stanford_ply_loader.c:205-217 | face i reads back from its record |
| PlyBody.FaceFromPart | stanford_ply_loader.c:205-217 | a written face record in the file reads as its list |
| PlyBody.ParseBodyOf | stanford_ply_loader.c:178-218 | after the vertices read, the body succeeds exactly when the faces read, with those vertices and lists |
| PlyBody.ParsePlyEncoded | stanford_ply_loader.c:62-231 | loading a file a writer produced from finite vertices and faces of fewer than 256 corners gives them back, whatever trails the body |
| PlyBody.ParsePlyParts | stanford_ply_loader.c:62-231 | an accepted header with the counts, then the written vertices and faces, loads as those vertices and faces |
| PlyBody.ParsePlyOf | stanford_ply_loader.c:62-231 | an accepted header and a body read with its counts make the load succeed with that body |
| PlyBody.ParseBodyEncoded | stanford_ply_loader.c:178-218 | written vertices followed by written faces read back as both |
| PlyBody.Pieces | stanford_ply_loader.c:62-231 | the header, vertices, faces and trailing bytes of a file can be cut apart again |
| PlyBody.AllFinite | stanford_ply_loader.c:25-29 | every word of a vertex record's eight floats passes isfinite |
| PlyBody.VertexAt | stanford_ply_loader.c:182-197 | the vertex record at an offset: None when the file ends inside it or one of its eight floats is not finite; otherwise position, normal and colour, s and t dropped |
| PlyBody.VertexNo | stanford_ply_loader.c:178-198 | the i-th vertex record of a body: VertexAt at offset 36 * i |
| PlyBody.Vertices | stanford_ply_loader.c:178-198 | the vertex loop: n records one after another, None as soon as one cannot be read (VerticesSpec) |
| PlyBody.VertexFloats | stanford_ply_loader.c:182-189 | a vertex record that reads back: its eight float words and four colour bytes |
| PlyBody.FiniteVertex | stanford_ply_loader.c:190-193 | the six floats load_ply keeps of a vertex are finite |
| PlyBody.FaceAt | stanford_ply_loader.c:205-217 | the face record at an offset: a count byte L then L words; the stored list [L] + indices and the offset after it, or None when the file ends inside it |
| PlyBody.Faces | stanford_ply_loader.c:200-218 | the face loop: n records, each starting where the previous ended, None as soon as one cannot be read |
| PlyBody.FaceList | stanford_ply_loader.c:211-216 | the list load_ply stores for a face: its count widened, then its vertex indices |
| PlyBody.SmallFaces | stanford_ply_loader.c:201-205 | every face has fewer than 256 corners, as its uint8_t count requires |
| PlyBody.EncodeFaces | stanford_ply_loader.c:200-218 | the face records as a writer lays them out, one after another |
| PlyBody.ParseBody | stanford_ply_loader.c:178-218 | the body after a header with nv and nf: the vertex loop then the face loop (ParseBodyOf, ParseBodyEncoded) |
| PlyBody.ParsePly | stanford_ply_loader.c:86-218 | load_ply on a whole file: ParseHeader, then ParseBody at its offset; trailing bytes ignored (ParsePlyOf, ParsePlyEncoded) |
| PlyBody.EncodePly | stanford_ply_loader.c:86-218 | a whole file as a writer lays it out: header with the counts, vertex records, face records |
| PlyLoader.PlyFile.constructor | stanford_ply_loader.c:80 | fopen of a file holding the given bytes, positioned at its start |
| PlyLoader.PlyFile.GetLine | stanford_ply_loader.c:86-90 | fgets returns nothing at the end of the file, otherwise the bytes up to the line end (at most 255) and moves past them |
| PlyLoader.PlyFile.ReadUchar | stanford_ply_loader.c:34-44 | read_uchar succeeds exactly when a byte is left, returning it and moving one on |
| PlyLoader.PlyFile.ReadUint | stanford_ply_loader.c:46-60 | read_uint succeeds exactly when four bytes are left, returning their little-endian word; a short read leaves the position at the end |
| PlyLoader.PlyFile.ReadFloat | stanford_ply_loader.c:11-32 | read_float succeeds exactly when four bytes are left and their pattern is finite, returning it |
| PlyLoader.PlyFile.ReadVertexRecord | stanford_ply_loader.c:182-189 | the eight read_float and four read_uchar calls succeed exactly when the record parses, returning that vertex and moving 36 bytes on |
| PlyLoader.FloatUnread | stanford_ply_loader.c:183-184 | a float that does not read makes the vertex record fail |
| PlyLoader.ReadCorners | stanford_ply_loader.c:213-217 | the corner loop succeeds exactly when len words are left, and then stores them after the length entry |
| PlyLoader.ReadHeader | stanford_ply_loader.c:86-146 | the header part of load_ply succeeds exactly when the header parses, with non-negative counts, leaving the file at the body |
| PlyLoader.FacesStuck | stanford_ply_loader.c:200-206 | a face that does not read makes all later face counts fail |
| PlyLoader.VerticesStuck | stanford_ply_loader.c:178-189 | a vertex that does not read makes all later vertex counts fail |
| PlyLoader.Heap.constructor | stanford_ply_loader.c:147 | the allocator before any call, with no live blocks |
| PlyLoader.Heap.Calloc | stanford_ply_loader.c:147-174 | calloc either fails, changing nothing live, or returns a fresh zero-filled block of n entries that becomes live |
| PlyLoader.Heap.Free | stanford_ply_loader.c:236-246 | free(NULL) does nothing; free of a live block makes it not live |
| PlyLoader.NoneFailSplit | stanford_ply_loader.c:147-174 | no allocation failed over a range of calls exactly when none failed over each part |
| PlyLoader.Zip | stanford_ply_loader.c:190-197 | vertex i is assembled from entry i of the six parallel arrays |
| PlyLoader.ListsOf | stanford_ply_loader.c:211-212 | face i's list is the contents of the block face_idx[i] points to |
| PlyLoader.FreeNth | stanford_ply_loader.c:237-238 | freeing one more face list removes it from the live blocks |
| PlyLoader.AllocatePair | stanford_ply_loader.c:163-170 | two callocs: both succeed exactly when no call failed, and the live blocks grow by the ones returned |
| PlyLoader.AllocateTail | stanford_ply_loader.c:163-174 | the last three callocs, as a unit |
| PlyLoader.AllocateMid | stanford_ply_loader.c:155-174 | the last five callocs, as a unit |
| PlyLoader.AllocateSeven | stanford_ply_loader.c:147-174 | the seven callocs: the face table comes back non-null exactly when none failed, then all have their sizes and the face table is all NULL; the live blocks grow by exactly what came back |
| PlyLoader.ReadFace | stanford_ply_loader.c:205-217 | one face succeeds exactly when its record reads and its calloc does not fail, and then face_idx[i] holds the list; the list block stays recorded even when the corners fail to read |
| PlyLoader.FaceStep | stanford_ply_loader.c:200-218 | one pass of the face loop extends the faces read by one, or fails because the faces do not parse or an allocation failed |
| PlyLoader.StanfordPly.constructor | stanford_ply_loader.c:70-78 | a record in the state load_ply first puts it in: counts -1, every pointer NULL |
| PlyLoader.StanfordPly.VertexContents | stanford_ply_loader.c:190-197 | the loaded vertices, one per vertex slot |
| PlyLoader.StanfordPly.FaceContents | stanford_ply_loader.c:211-212 | the loaded face lists, one per face |
| PlyLoader.StanfordPly.AllocateAll | stanford_ply_loader.c:147-176 | the allocations succeed exactly when no calloc fails; then the counts are set and the arrays have their sizes, otherwise the counts stay -1; the live blocks grow by exactly the record's blocks |
| PlyLoader.StanfordPly.StoreVertex | stanford_ply_loader.c:190-197 | vertex i is stored across the six arrays and no other vertex changes |
| PlyLoader.StanfordPly.ReadVertices | stanford_ply_loader.c:178-198 | the vertex loop succeeds exactly when the vertex records parse, and then the arrays hold them |
| PlyLoader.StanfordPly.ReadFaces | stanford_ply_loader.c:200-218 | the face loop succeeds exactly when the faces parse and no calloc fails, and then face_idx holds the lists |
| PlyLoader.StanfordPly.ReadBody | stanford_ply_loader.c:178-218 | the body succeeds exactly when it parses and no calloc fails, and then the record holds it |
| PlyLoader.StanfordPly.LoadBody | stanford_ply_loader.c:147-231 | allocation and body: on success the record holds the parsed body and owns its blocks; on failure free_ply leaves the live blocks as before |
| PlyLoader.StanfordPly.LoadPly | stanford_ply_loader.c:62-231 | load_ply returns 0 exactly when the file opened, parses, and no calloc failed, and then holds ParsePly of the file; on -1 nothing it allocated stays live |
| PlyLoader.StanfordPly.FreePly | stanford_ply_loader.c:233-247 | free_ply frees exactly the record's blocks: the face lists, the face table and the six arrays |
| PlyLoader.PlyFile.Valid | stanford_ply_loader.c:80 | the file position lies within the file |
| PlyLoader.NoneFail | stanford_ply_loader.c:147-174 | none of the calloc calls with the given numbers fails |
| PlyLoader.FreeNext | stanford_ply_loader.c:236-246 | freeing the pointers one after another frees each block once: the m-th is not among the blocks freed before it |
| PlyLoader.StoreBlock | stanford_ply_loader.c:147-212 | storing a new calloc block into a null slot adds exactly that block and keeps the blocks apart from the live ones |
| PlyLoader.OwnsLists | stanford_ply_loader.c:207-212 | new face lists in front of the seven owned blocks: all blocks stay different and the seven stay owned |
| PlyLoader.ListsRead | stanford_ply_loader.c:200-218 | the face lists face_idx holds after i passes of the face loop: the lists read, then null |
| PlyLoader.StanfordPly.Cleared | stanford_ply_loader.c:70-78 | the state load_ply starts from: counts -1 and every pointer NULL |
| PlyLoader.StanfordPly.Shaped | stanford_ply_loader.c:147-176 | every array allocated with the length of its count |
| PlyLoader.StanfordPly.Loaded | stanford_ply_loader.c:147-218 | a loaded struct: Shaped and every face list present |
| PlyLoader.StanfordPly.Contents | stanford_ply_loader.c:178-218 | the model a loaded struct holds: its vertices and face lists |
| PlyLoader.StanfordPly.Lists | stanford_ply_loader.h:14 | the face lists face_idx points to, as pointers |
| PlyLoader.StanfordPly.Seven | stanford_ply_loader.c:239-246 | the seven array pointers, in the order free_ply frees them |
| PlyLoader.StanfordPly.Blocks | stanford_ply_loader.c:236-246 | every pointer free_ply frees, in order: the face lists, face_idx, then the six per-vertex arrays |
| PlyLoader.StanfordPly.Footprint | stanford_ply_loader.h:1-15 | the blocks the struct points to |
| PlyLoader.StanfordPly.Owns | stanford_ply_loader.c:236-246 | every block the struct points to is live and none is pointed to twice, so free_ply frees each once |
| PlyLoader.StanfordPly.VertexIn | stanford_ply_loader.c:190-197 | the vertex the per-vertex arrays hold at index k |
| PlyLoader.StanfordPly.Separate | stanford_ply_loader.c:147-170 | the per-vertex arrays and face_idx are seven different blocks |
| Rubberduck.Cmp3 | rubberduck.c:9-28 | cmp_3float returns -1, 0 or 1: 0 exactly for equal points, -1 exactly when a precedes b in (x, y, z) order, 1 exactly when b precedes a |
| Rubberduck.Cmp3Antisymmetric | rubberduck.c:9-28 | swapping the arguments negates the result |
| Rubberduck.Cmp3Transitive | rubberduck.c:9-28 | the order cmp_3float defines is transitive, as qsort needs |
| Rubberduck.SortedPointsSortX | rubberduck.c:190-191 | points sorted by cmp_3float are sorted by x, the coordinate the searches look at |
| Rubberduck.LowLimit | rubberduck.c:32-52 | low_limit returns an index below count; on points sorted by x, every earlier point has x below low_val and the returned one has x at least low_val unless it is the last |
| Rubberduck.HighLimit | rubberduck.c:55-75 | high_limit returns an index below count; on points sorted by x, every later point has x above high_val and the returned one has x at most high_val unless it is the first |
| Rubberduck.InKernelNearX | rubberduck.c:96-101 | a point within RANGE of the query (squared distance at most RANGE squared) has x within RANGE of the query's x, so the x window cannot miss it |
| Rubberduck.CountInside | rubberduck.c:96-104 | the number of points of an index range that pass the distance test is at most the range's size |
| Rubberduck.CountInsideWiden | rubberduck.c:96-104 | widening the range by points that fail the test does not change the count |
| Rubberduck.CountInsideFrom | rubberduck.c:96-104 | the count of a range is the first point's contribution plus the count of the rest |
| Rubberduck.WindowComplete | rubberduck.c:94-96 | every point with x in [low_val, high_val] lies between the two limits |
| Rubberduck.WindowCount | rubberduck.c:94-104 | when every passing point lies in the window, counting the window counts all passing points |
| Rubberduck.FoldPointsWithKernel | rubberduck.c:78-107 | the result is the number of window points whose squared distance to (x, y, z) is at most RANGE squared; on sorted points the window holds every point with x within RANGE of the query, and the result is the number of such points in the whole cloud |
| Rubberduck.AnimFrameResult | rubberduck.c:249 | the animation reports it is done (1) exactly after frame 3000 |
| Rubberduck.AnimStops | rubberduck.c:249 | once done it stays done, and it is not done up to frame 3000 |
| Rubberduck.LexLess | rubberduck.c:9-28 | lexicographic order on (x, y, z): the independent order cmp_3float is checked against |
| Rubberduck.PointAt | rubberduck.c:97-99 | the i-th point of the flat array: (p[3i], p[3i+1], p[3i+2]) |
| Rubberduck.SortedPoints | rubberduck.c:190-191 | the first count points are in the order qsort with cmp_3float leaves them |
| Rubberduck.SortedX | rubberduck.c:32-75 | the x keys p[3m] of the first count points ascend, which the binary searches rely on |
| Rubberduck.InKernel | rubberduck.c:97-101 | the kernel's distance test: dx*dx + dy*dy + dz*dz <= range*range, the comparison sqrt(...) <= range without the root |
| SimplexNoise.SeedsBounded | simplex_noise.c:14 | the eight noise seeds are each at most 0x38 |
| SimplexNoise.Shuffle2 | simplex_noise.c:16-20 | shuffle2 is bit B of N, so it is 0 or 1 |
| SimplexNoise.Shuffle2Period | simplex_noise.c:16-20 | bit B of N does not change when a multiple of 2^m is added, for any m above B |
| SimplexNoise.Shuffle2Low | simplex_noise.c:16-20 | bits 0 to 7 depend only on the low byte of N |
| SimplexNoise.SeedIndex | simplex_noise.c:26 | the index shuffle4 builds from three bits lies in [0, 8), inside noise_seeds |
| SimplexNoise.Shuffle4 | simplex_noise.c:23-27 | shuffle4 returns one of the seeds, so at most 0x38 |
| SimplexNoise.Lookup | simplex_noise.c:23-27 | a lookup in noise_seeds is at most 0x38 |
| SimplexNoise.ShuffleFrom | simplex_noise.c:30-37 | the sum of the shuffle4 terms from bit b to bit 7 is at most (8 - b) * 0x38 |
| SimplexNoise.Shuffle | simplex_noise.c:30-37 | shuffle is at most 8 * 0x38 = 448, so its uint32_t sum never wraps |
| SimplexNoise.ShuffleTerms | simplex_noise.c:33-36 | shuffle is the sum of the eight shuffle4 terms with (i, j, k) rotated as written |
| SimplexNoise.ShuffleFromLowBits | simplex_noise.c:30-37 | the partial shuffle sums depend only on the low bytes of i, j and k |
| SimplexNoise.SeedIndexLowBits | simplex_noise.c:26 | the seed index for bits 0 to 7 depends only on the low bytes |
| SimplexNoise.ShuffleLowBits | simplex_noise.c:30-37 | shuffle depends only on the low bytes of its arguments: the hash is periodic with period 256 |
| SimplexNoise.ShuffleWrapLowBits | simplex_noise.c:47 | the uint32_t wrap-around of i+A[0], j+A[1] and k+A[2] never changes the corner hash |
| SimplexNoise.CornerHash | simplex_noise.c:47 | the hash of a corner is at most 448 |
| SimplexNoise.AlongWithin | simplex_noise.c:48 | one unit step along a coordinate keeps the offsets within [0, n + 1] |
| SimplexNoise.BumpStep | simplex_noise.c:48 | A[a]++ on offsets of at most 3 does not wrap, so it is a unit step |
| SimplexNoise.Orient | simplex_noise.c:55-58 | the low two bits of h pick the cyclic order of (x, y, z): b == 1 keeps it, b == 2 rotates once, b == 0 or 3 rotates twice |
| SimplexNoise.Flip | simplex_noise.c:59-61 | a sign flip keeps the magnitude |
| SimplexNoise.GradientOf | simplex_noise.c:51-63 | the gradient term is at most the sum of the magnitudes of the three offsets |
| SimplexNoise.Gradient | simplex_noise.c:51-63 | the gradient term of a hash is bounded by abs(x) + abs(y) + abs(z) |
| SimplexNoise.GradientOdd | simplex_noise.c:51-63 | the gradient term is odd: negating the point negates it |
| SimplexNoise.GradientOfOdd | simplex_noise.c:56-63 | the same oddness for every choice of the hash bits |
| SimplexNoise.Falloff | simplex_noise.c:46-63 | the fall-off factor 25 t^4 is never negative and is 0 once the squared distance exceeds 0.6 |
| SimplexNoise.KValueSupport | simplex_noise.c:42-50 | a corner whose squared distance from the point exceeds 0.6 contributes 0 |
| SimplexNoise.K | simplex_noise.c:40-64 | K returns the contribution of the corner at the offsets A held on entry, hashed at the lattice cell plus those offsets, and increments A[a] modulo 2^32 |
| SimplexNoise.KStep | simplex_noise.c:40-64 | on offsets within [0, n], K's increment is a unit step along a and the offsets stay within [0, n + 1] |
| SimplexNoise.Hi | simplex_noise.c:84 | hi is the index of a largest of u, v, w |
| SimplexNoise.Lo | simplex_noise.c:85 | lo is the index of a smallest of u, v, w |
| SimplexNoise.HiLoPermutation | simplex_noise.c:84-90 | hi, 3-hi-lo and lo are the three coordinates in decreasing order of the offsets |
| SimplexNoise.CornerPath | simplex_noise.c:89-92 | the corner path of the simplex has four corners |
| SimplexNoise.CornerPathSteps | simplex_noise.c:89-92 | each corner is one unit step from the previous one, the last along lo, and the four corners are distinct |
| SimplexNoise.PathLevel | simplex_noise.c:89-92 | corner t of the path has coordinates summing to t: the path climbs from the cell origin to its far corner |
| SimplexNoise.Walk | simplex_noise.c:89-92 | three unit steps from the origin give four corners |
| SimplexNoise.FourK | simplex_noise.c:89-92 | four calls of K that share A visit the corners of the walk and sum their contributions |
| SimplexNoise.SimplexNoise3d | simplex_noise.c:67-93 | assuming the four K calls run left to right, one order C allows: the noise is the sum of the contributions of the four corners of the point's simplex: origin, one step along hi, one more along 3-hi-lo, and the far corner |
| SimplexNoise.SimplexNoise3dRightToLeft | simplex_noise.c:89-92 | if the operands of the sum are evaluated right to left, the corners visited are the origin, one step along 0, one more along lo, and then along 3-hi-lo |
| SimplexNoise.DescendingPoint | simplex_noise.c:84-85 | for offsets (0.3, 0.2, 0.1), hi is 0 and lo is 2 |
| SimplexNoise.RightToLeftWrongCorner | simplex_noise.c:89-92 | at that point the right-to-left order visits the corner (1, 0, 1), which is outside the point's simplex, and never the corner (1, 1, 0), which is inside it |
| SimplexNoise.Normalize | simplex_noise.c:100-108 | simplex_noise_3d_norm maps s_min to -1 and s_max to 1 |
| SimplexNoise.NormalizeMonotone | simplex_noise.c:100-108 | the normalisation keeps order |
| SimplexNoise.At | simplex_noise.c:41 | entry c of the offset array A |
| SimplexNoise.Along | simplex_noise.c:48 | one unit step along coordinate c |
| SimplexNoise.Bump | simplex_noise.c:48 | A[a]++ on a uint32_t entry, wrapping to 0 past 2^32 - 1 |
| SimplexNoise.Within | simplex_noise.c:83-92 | every entry of an offset lies in [0, n] |
| SimplexNoise.Relative | simplex_noise.c:42-45 | the point relative to a corner: u - A[0] + s, v - A[1] + s, w - A[2] + s with s = (A[0]+A[1]+A[2])/6 |
| SimplexNoise.KValue | simplex_noise.c:42-63 | K's value for a corner: Falloff (0 when t = .6 - x*x - y*y - z*z is negative, else 25 t^4) times the gradient term, both at the point Relative to that corner |
| SimplexNoise.Contribution | simplex_noise.c:40-64 | the contribution of one corner of the cell (i, j, k): KValue at the corner's hash |
| SimplexNoise.Coord | simplex_noise.c:80-82 | coordinate c of (u, v, w) |
| SimplexNoise.Level | simplex_noise.c:42 | the sum of an offset's entries, the number of unit steps from the cell origin |
| SimplexNoise.NoiseSum | simplex_noise.c:89-92 | the sum of the four corner contributions in the order the corners are listed |

`g_text` is the same code in both generators (ledtorus_anim.c:319-369 and
ledtorus2_anim.c:311-361). `AnimHelpers.GText` models it for any display
with at least 8 rows. The fireworks code of the two generators differs
only in its constants (ledtorus_anim.c:760-780, ledtorus2_anim.c:549-562)
and in its ground span. `Fireworks` takes them as a `Config`, and
`Fireworks.ConfigsValid` checks both sets.

The remaining members are proof helpers with no counterpart in the C
code, so they have no row: the integer facts `FrameLayout.MulLe`,
`FrameLayout.DivModUnique`, `FrameLayout.ByteOfSlot`,
`FrameTransport.ModDiffZero`, `FrameTransport.ModShift`,
`FrameTransport.ModAddMultiple`, `FrameTransport.ModU64Add`,
`FrameTransport.ModU64Mul`, `FrameTransport.DivModU64`,
`MigratingDots.MulSucc`, `MigratingDots.ModMultiple`, `MigratingDots.MulDivBound`,
`MigratingDots.DivMonotone`, `SimplexNoise.ModUnique`,
`SimplexNoise.ModMod`, `SimplexNoise.Pow2`, `SimplexNoise.Abs`,
`PlyHeader.Pow10`, `Fireworks.Min` and `Fireworks.Add`; the real-number
steps `AnimHelpers.AccumulatorStep`, `AnimHelpers.DivExact` and
`LedTorusView.MulMono`; the sequence facts `PlyHeader.Slices`,
`PlyBody.Concat`, `PlyBody.Uniform`, `PlyBody.Offset` and
`MigratingDots.Distinct`; and the pointer-set bookkeeping behind
`PlyLoader.StanfordPly.Owns` (`PlyLoader.Opt`, `PlyLoader.NonNull`,
`PlyLoader.Distinct`, `PlyLoader.Apart`, `PlyLoader.AllDifferent`,
`PlyLoader.DifferentOf`, `PlyLoader.DistinctAppend`, `PlyLoader.Join`,
`PlyLoader.Rotate`, `PlyLoader.DistinctSuffix` and
`PlyLoader.NullsFirst`).

## Left out

- Threads, locks and the clock: the mutexes, condition variables,
  `usleep` and `gettimeofday` of io.cpp are not modelled. Each blocking
  wait is a precondition of the operation after it. Each clock reading
  is a method argument.
- System calls: `read`, `lseek` and `exit` in io.cpp are parameters. A
  sequence of read answers stands for `read`, and a flag says whether the
  input can be rewound.
- Rendering and user interface: the OpenGL calls of `draw_ledtorus` and
  `build_geometry`, the float vertex coordinates of the torus, and the Qt
  window and argument parsing of main.cpp are not modelled.
- Float numerics are parameters or opaque reals and are not modelled
  bit for bit. This covers `hsv2rgb_f`, `mk_hsv3_f`, `torus_polar2rect`
  and `torus2_polar2rect`, the float maths inside `vrand`, `sinf` and
  the `sqrtf` of the fireworks. Float rounding is not modelled either: reals are exact.
- Fireworks: the colour fields of rockets and embers are dropped, because
  only float colour computations read them. The drawing loops that call
  `ut_fireworks_setpix` for every particle are not modelled; one call is
  (`Fireworks.UtFireworksSetPix`).
- MigratingDots: the loop that draws every dot is not modelled. The
  placement of one dot is (`MigratingDots.DrawCell`), and so is its colour.
- AnimHelpers.GText: the contract says which band of plane x is painted
  and how far the angle steps back. It does not say which pixels form the
  glyphs, because that depends on the font table, which is data only.
- The other animations are not modelled: `an_ghost`, `an_supply_voltage`
  with `float_to_str`, and the simplex-noise shaders `an_simplex_noise1`
  to `an_simplex_noise3`. The noise values `an_graphs` plots are a
  parameter of `AnimHelpers.GraphPoint`.
- render3d.c is not part of this model: it is float vector geometry and
  point-in-polygon tests.
- Stanford PLY: `fopen`, `fgets`, `fclose` and the stderr messages are not
  modelled. The file is an in-memory byte sequence, and `fgets` becomes a
  line split of that sequence.
- Stanford PLY: the warning printed when data follows the last face is
  not modelled. It does not change the result.
- Stanford PLY: `sscanf`'s `%d` is modelled on unbounded integers. A count
  too large for `int` is not modelled.
- Rubberduck: `rubberduck_init` is not modelled. That covers reading the
  point file, `qsort` itself (only the order it sorts by is), and the loops
  that fill the density grid.
- Rubberduck.FoldPointsWithKernel: `sqrtf(dx*dx + dy*dy + dz*dz) <= range`
  is modelled as the equivalent exact test on squares. Float rounding near
  the boundary is not modelled.
- MigratingDots.MigratingDotsState.NewRound (and FlipToRound and Tick,
  which call it): the text index follows the intended rule
  `TextAfterRound` (-5 goes to -4), not the signed/unsigned comparison
  as written (-5 goes to -1). See Findings.
- PlyLoader.ReadHeader and PlyLoader.StanfordPly.LoadPly (through
  PlyHeader.ParseHeader): a count is stored only when `sscanf` assigns
  `%d`. The code as written also stores a stale count on a line such as
  "element vertex\n". See Findings.
- FrameReader.StdinReader.Fill (and ReaderTurn, which calls it): an
  interrupted read is retried with `sofar` unchanged, not `sofar += -1` as
  io.cpp:117 does. So the model never publishes the stale or shifted
  buffer the code as written can. See Findings.
- Common.Irand: `irand(1)` is modelled with its exact divisor 2^31. The
  C expression overflows `int` there (see Findings), and the wrapped
  divisor gives the same result, 0.
- Rubberduck.LowLimit and Rubberduck.HighLimit: both require count >= 1.
  For count 0 the C code reads `p[0]`, past the end of the empty array
  (the midpoint of 0 and -1 truncates to 0); `high_limit` then never ends,
  and `low_limit` ends only when that key is at least `low_val`.
- SimplexNoise: `floorf` and the float-to-`uint32_t` casts that give the
  lattice cell are parameters.
- SimplexNoise: the float sum of the four contributions is a real sum, so
  it does not depend on the order of addition.
- SimplexNoise: `simplex_noise_3d_norm` is modelled as its affine map on
  reals only.

## Findings

| source | as written | input that shows it | evidently intended | confidence | as-written member | corrected member |
|---|---|---|---|---|---|---|
| io.cpp:117 | `sofar += res` runs for every result that is not an error other than EINTR, so an interrupted read adds -1 to the unsigned `sofar` | a read interrupted by a signal at the start of a frame: `sofar` becomes 2^32 - 1, the loop ends, and the buffer is published without any new byte | an interrupted read is retried with `sofar` unchanged | not executed | FrameReader.InterruptAtFrameStartPublishesStale | FrameReader.StdinReader.Fill |
| stanford_ply_loader.c:110-116 | the result of `sscanf` is used as a truth value, so EOF (-1) counts as a match | the header line "element vertex\n": `sscanf` reaches the end of input before `%d` and returns EOF, and the stale `n` becomes the vertex count | a count is taken only when `sscanf` returns 1 | not executed | PlyHeader.HeaderLineWithoutCount | PlyHeader.HeaderLine |
| simplex_noise.c:89-92 | the four calls of `K` that update the shared `A[]` are operands of one `+` expression, and C does not fix their order | offsets (0.3, 0.2, 0.1), evaluated right to left: the walk visits corner (1, 0, 1), which is outside the point's simplex, and skips (1, 1, 0) | the calls run left to right, visiting the origin, one step along hi, one more along the middle coordinate, and (1, 1, 1) | not executed | SimplexNoise.RightToLeftWrongCorner | SimplexNoise.SimplexNoise3d |
| ledtorus_anim.c:1217-1220 | for a dot moving vertically, the top of the innermost column is clamped to row LEDS_Y - 2, and row LEDS_Y - 2 itself is left alone | a dot at x 0, z 7 heading for a top or bottom face: it is drawn at z 6, where the display has no LED (a dot at z 6 stays there too) | rows 6 and 7 of the innermost column are drawn at row 5, its top LED, just as rows 0 and 1 are drawn at row 2 | not executed | MigratingDots.DrawCellAsWrittenHitsGap | MigratingDots.DrawCellAvoidsGaps |
| ledtorus_anim.c:1068-1070 | `text_idx >= strlen(text)` compares a signed index with an unsigned length, so every negative next index counts as past the end | the initial index -5: after one round it becomes -1 instead of -4, so only two blank rounds (at -5 and -1) come before the text instead of five | five blank rounds come before the first letter | not executed | MigratingDots.TextIndexSkipsBlanks | MigratingDots.TextIndexFiveBlanks |
| ledtorus_anim.c:117 | `RAND_MAX/n+1` is computed in `int`, and for n = 1 it is INT_MAX + 1, a signed overflow | `irand(num_left)` at ledtorus_anim.c:1086 when one dot of a row is left to place (num_left == 1) | a divisor that fits in `int`, for example computed in unsigned or wider arithmetic; with the usual wrap the result is still 0 | not executed | Common.IrandOneOverflows | Common.Irand |

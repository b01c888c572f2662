# fundsp_playground: note frequencies and the output-buffer fill

The program plays notes through a live-editable `fundsp` audio graph. Two
pieces of its sequential logic are modelled here and proved correct.

- **`write_data`** (module `Interleave`, `write_data.dfy`). The audio
  callback fills the device's interleaved output buffer. It cuts the buffer
  into chunks of `channels` slots and pulls one stereo frame per chunk from
  the graph. Each slot is overwritten with the left value when its channel
  index is even and the right value when it is odd. `WriteData` is a method
  that works in place on an `array<T>`. The frames the graph would return,
  already converted to the output sample type, are a `seq<(T, T)>` read in
  order, and the method returns how many it pulled. It is proved against
  the function `Interleaved`, which builds the buffer chunk by chunk the way
  `chunks_mut` cuts it. Lemmas about that function give each slot's value,
  the number of frames pulled (the ceiling of `len / channels`), the
  two-channel case, and the one-channel case.
- **The exact part of `get_note_frequency`** (module `Notes`, `notes.dfy`).
  The twelve `BaseNote` variants map to pitch classes 0..11. A note's
  semitone index is `pitchClass + 12 * octave`. Its frequency is
  `440 * 2^((index - 9) / 12)` Hz. The frequency is kept symbolic as
  `Tempered(reference, exponent)`: the exponent is an exact rational and
  the power of two is not evaluated. The lemmas prove that the pitch-class
  map is a bijection and that the semitone index is one too. They also prove
  the octave shift, the ordering, and the two anchors the source's tests
  check. A0 has exponent 0, so it is exactly 440 Hz. C0 has
  exponent -9/12. The test expects about 261.626 Hz for C0, but the model
  does not evaluate the power of two, so it proves the exponent behind that
  value and not the value itself.

## Model

| member | source | states |
|---|---|---|
| `Notes.Base` | src/main.rs:19-21 | `Note::base` puts the note in octave 0, so its semitone index is just its pitch class |
| `Notes.New` | src/main.rs:23-25 | `Note::new` keeps the given pitch class and octave: the index splits back into exactly that pitch class (remainder mod 12) and octave (quotient) |
| `Notes.PitchClass` | src/main.rs:169-181 | the number a variant maps to is below 12 and is that variant's position in declaration order |
| `Notes.FromPitchClass` | src/main.rs:32-45 | the variant declared at position `k` maps back to `k` under the pitch-class map |
| `Notes.PitchClassBijection` | src/main.rs:32-45 | the pitch-class map and the declaration-order lookup are inverse both ways, so the map is injective and hits every class in 0..11 |
| `Notes.SemitoneIndex` | src/main.rs:184 | the index's remainder mod 12 is the pitch class and its quotient is the octave |
| `Notes.NoteAt` | src/main.rs:184 | every index within the i32 octave range is the index of a note |
| `Notes.SemitoneIndexBijection` | src/main.rs:184 | two notes have the same index iff they are the same note, and `NoteAt` inverts the index both ways |
| `Notes.SemitoneIndexOrder` | src/main.rs:184 | one index is below another iff the octave is lower, or the octave is the same and the pitch class is lower |
| `Notes.NoteFrequency` | src/main.rs:186 | the frequency has the 440 Hz reference, and every note lies in its octave's band: its exponent is between the octave minus 9/12 (C) and the octave plus 2/12 (H) |
| `Notes.OctaveShift` | src/main.rs:184-186 | one octave up adds exactly 12 to the index and doubles the frequency |
| `Notes.FrequencyOrder` | src/main.rs:184-186 | one frequency is below another iff its index is lower; within an octave, iff its pitch class is lower |
| `Notes.ConcertPitch` | src/main.rs:207-215 | A in octave 0 is exactly 440 Hz (exponent 0), and A in octave `o` is 440 * 2^o |
| `Notes.MiddleC` | src/main.rs:195-203 | C in octave 0 has exponent -9/12, nine semitones below the 440 Hz A; this is the exponent behind the test's 261.626 Hz, which the model does not evaluate |
| `Interleave.ChunkCountCovers` | src/main.rs:153 | the chunks cover the whole buffer and the last one is not empty |
| `Interleave.ChunkCountUnique` | src/main.rs:153 | any count of chunks that covers the buffer with a non-empty last chunk is the number of chunks `chunks_mut` makes |
| `Interleave.ChunkCountClosedForm` | src/main.rs:153 | the number of chunks is `len / channels`, plus one for a trailing partial chunk when `len` is not a multiple of `channels` |
| `Interleave.Interleaved` | src/main.rs:153-164 | the buffer filled chunk by chunk has exactly `len` slots |
| `Interleave.InterleaveAt` | src/main.rs:153-164 | slot `i` comes from frame `i / channels`, which exists among the pulled frames: the left value if `i % channels` is even, the right value if it is odd; this holds in a trailing partial chunk too |
| `Interleave.InterleaveAppend` | src/main.rs:153-164 | filling one more chunk after a chunk boundary pulls exactly one more frame and appends that chunk, taken from the next frame in order |
| `Interleave.InterleavePrefix` | src/main.rs:153-154 | the filled buffer depends only on the first `ChunkCount` frames, so no frame past them is consumed |
| `Interleave.StereoIsFlatten` | src/main.rs:158-164 | with two channels a buffer of `len` slots pulls `(len + 1) / 2` frames and is the plain interleaving L0, R0, L1, R1, ... of them, cut to `len` slots; a buffer of whole frames (`2n` slots) is exactly that interleaving of `n` frames |
| `Interleave.MonoTakesLeft` | src/main.rs:158-164 | with one channel slot `i` is the left value of frame `i` |
| `Interleave.WriteData` | src/main.rs:149-166 | with `channels > 0` (`chunks_mut(0)` panics), the method pulls exactly `ChunkCount(len, channels)` frames and overwrites every slot of the buffer with `Interleaved` of those frames, whatever was there before |

## Left out

- Device and host discovery, stream configuration, `build_output_stream`, `play` and the error callback (src/main.rs:47-61, 63-93): I/O against the audio library.
- The `Net64` graph, `chain`, `backend`, `replace` and `commit` (src/main.rs:72-81, 137-141): a cross-thread lock-free swap inside the audio library, whose code is not part of this model. In `WriteData` the graph's `get_stereo` becomes the sequence of frames it returns.
- The allocation guard `assert_no_alloc` and the `AllocDisabler` allocator (src/main.rs:9-11, 81): process-wide allocator instrumentation.
- The playback loop's timing, `4 * 60000 / bpm` and `std::thread::sleep` (src/main.rs:131-145): blocking control-thread plumbing.
- The floating-point `2.0.pow(...)`, the `as f64` conversions and `T::from_sample` (src/main.rs:155-156, 182-186): float numerics and sample-format conversion. The exponent is an exact rational; the source rounds it to an `f64`.
- The literal note schedules `a` and `asdf` (src/main.rs:97-129): configuration data with no behaviour of their own.
- `Interleave.WriteData`: the frame source is a finite sequence that must hold at least `ChunkCount(len, channels)` frames, whereas the source's closure never runs out.
- `Interleave.WriteData`: `channel & 1 == 0` is written `channel % 2 == 0`. The two agree because a channel index is never negative.

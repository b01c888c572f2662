/** Notes of the twelve-tone equal-tempered scale and the exact part of the
    frequency computation: pitch class, semitone index and the exponent of
    two that scales the 440 Hz reference. */
module Notes {

  /** A signed 32-bit integer, the type of a note's octave. */
  newtype i32 = x: int | -0x8000_0000 <= x < 0x8000_0000

  /** The twelve pitch classes, in declaration order (German names: H is B). */
  datatype BaseNote = C | Cis | D | Dis | E | F | Fis | G | Gis | A | Ais | H

  /** A note is a pitch class in an octave; octave 0 holds the 440 Hz A. */
  datatype Note = Note(note: BaseNote, octave: i32)

  /** The pitch classes in declaration order. */
  const Chromatic: seq<BaseNote> := [C, Cis, D, Dis, E, F, Fis, G, Gis, A, Ais, H]

  /** A frequency written as `reference * 2^exponent` Hz. The power of two is
      not evaluated: two frequencies with the same reference compare as their
      exponents do, and adding 1 to the exponent doubles the frequency. */
  datatype Frequency = Tempered(reference: real, exponent: real)

  /** The frequency one octave above `f`, i.e. twice `f`. */
  function Doubled(f: Frequency): Frequency
  {
    Tempered(f.reference, f.exponent + 1.0)
  }

  /** `f` is strictly below `g`: same positive reference, smaller exponent. */
  predicate Below(f: Frequency, g: Frequency)
  {
    f.reference == g.reference && f.reference > 0.0 && f.exponent < g.exponent
  }

  /** The note with pitch class `note` in octave 0. */
  function Base(note: BaseNote): (n: Note)
    ensures SemitoneIndex(n) == PitchClass(note)
  {
    Note(note, 0)
  }

  /** The note with pitch class `note` in octave `octave`. */
  function New(note: BaseNote, octave: i32): (n: Note)
    ensures SemitoneIndex(n) % 12 == PitchClass(note)
    ensures SemitoneIndex(n) / 12 == octave as int
  {
    Note(note, octave)
  }

  /** Position of a pitch class within the octave, counted from C. */
  function PitchClass(b: BaseNote): (k: nat)
    ensures k < 12 && Chromatic[k] == b
  {
    match b
    case C => 0
    case Cis => 1
    case D => 2
    case Dis => 3
    case E => 4
    case F => 5
    case Fis => 6
    case G => 7
    case Gis => 8
    case A => 9
    case Ais => 10
    case H => 11
  }

  /** The pitch class at position `k` of the octave. */
  function FromPitchClass(k: nat): (b: BaseNote)
    requires k < 12
    ensures PitchClass(b) == k
  {
    ChromaticDistinct();
    Chromatic[k]
  }

  lemma ChromaticDistinct()
    ensures forall i, j :: 0 <= i < j < |Chromatic| ==> Chromatic[i] != Chromatic[j]
  {
  }

  /** Semitones above C of octave 0. */
  function SemitoneIndex(n: Note): (i: int)
    ensures i % 12 == PitchClass(n.note)
    ensures i / 12 == n.octave as int
  {
    PitchClass(n.note) + 12 * (n.octave as int)
  }

  /** Smallest and largest semitone index a note can have. */
  const MinIndex: int := 12 * -0x8000_0000
  const MaxIndex: int := 12 * 0x7fff_ffff + 11

  /** The note at semitone index `i`. */
  function NoteAt(i: int): (n: Note)
    requires MinIndex <= i <= MaxIndex
    ensures SemitoneIndex(n) == i
  {
    Note(FromPitchClass(i % 12), (i / 12) as i32)
  }

  /** The note's equal-tempered frequency, `440 * 2^((index - 9) / 12)` Hz.
      Every note lies in its octave's band around that octave's A: from C,
      nine semitones below it, to H, two semitones above it. */
  function NoteFrequency(n: Note): (f: Frequency)
    ensures f.reference == 440.0
    ensures n.octave as real - 0.75 <= f.exponent <= n.octave as real + 2.0 / 12.0
  {
    Tempered(440.0, (SemitoneIndex(n) - 9) as real / 12.0)
  }

  /** The pitch-class map is a bijection from the twelve variants, in
      declaration order, onto 0..11. */
  lemma PitchClassBijection()
    ensures forall b :: FromPitchClass(PitchClass(b)) == b
    ensures forall k :: 0 <= k < 12 ==> PitchClass(FromPitchClass(k)) == k
    ensures forall k :: 0 <= k < 12 ==> FromPitchClass(k) == Chromatic[k]
    ensures forall b, b' :: PitchClass(b) == PitchClass(b') ==> b == b'
  {
  }

  /** Distinct notes have distinct semitone indices, and every index in
      range is the index of the note `NoteAt` returns. */
  lemma SemitoneIndexBijection(a: Note, b: Note, i: int)
    requires MinIndex <= i <= MaxIndex
    ensures SemitoneIndex(a) == SemitoneIndex(b) <==> a == b
    ensures NoteAt(SemitoneIndex(a)) == a
    ensures SemitoneIndex(NoteAt(i)) == i
  {
  }

  /** Raising the octave by one adds exactly twelve semitones and doubles
      the frequency. */
  lemma OctaveShift(b: BaseNote, o: i32)
    requires o < 0x7fff_ffff
    ensures SemitoneIndex(New(b, o + 1)) == SemitoneIndex(New(b, o)) + 12
    ensures NoteFrequency(New(b, o + 1)) == Doubled(NoteFrequency(New(b, o)))
  {
  }

  /** Semitone indices order notes by octave first, then by pitch class. */
  lemma SemitoneIndexOrder(a: Note, b: Note)
    ensures SemitoneIndex(a) < SemitoneIndex(b) <==>
      a.octave < b.octave || (a.octave == b.octave && PitchClass(a.note) < PitchClass(b.note))
  {
  }

  /** A higher semitone index means a strictly higher frequency and
      conversely; within one octave, frequency rises with the pitch class. */
  lemma FrequencyOrder(a: Note, b: Note)
    ensures Below(NoteFrequency(a), NoteFrequency(b)) <==> SemitoneIndex(a) < SemitoneIndex(b)
    ensures a.octave == b.octave ==>
      (Below(NoteFrequency(a), NoteFrequency(b)) <==> PitchClass(a.note) < PitchClass(b.note))
  {
    SemitoneIndexOrder(a, b);
  }

  /** A in octave 0 is exactly 440 Hz (exponent 0); every A is `440 * 2^octave`. */
  lemma ConcertPitch(o: i32)
    ensures NoteFrequency(Base(A)) == Tempered(440.0, 0.0)
    ensures NoteFrequency(New(A, o)) == Tempered(440.0, o as real)
  {
  }

  /** C in octave 0 lies nine semitones below the A: exponent -9/12. */
  lemma MiddleC()
    ensures NoteFrequency(Base(C)) == Tempered(440.0, -0.75)
  {
  }
}

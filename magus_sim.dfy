// The Python side of the simulator builder (MagusSim/MakeMagusSim.py):
// the command-line helpers `innerName` and `includeSplit`, the `--note`
// parser that turns "at:note:on" strings into 4-byte USB-MIDI events,
// and the simulator's stand-in for `Patch::registerParameter`.
// File-system calls (`abspath`, `makedirs`, `copy`) and the compiler
// invocation are not part of this model.

module MagusSim {
  import opened Bits
  import opened Wrappers
  import opened MidiMessages
  import ScreenSaver

  // ---------------------------------------------------------------- strings

  /** The index of the first `c` in `s`, or `|s|` when there is none. */
  function IndexOf(s: string, c: char): (k: nat)
    ensures k <= |s|
    ensures c !in s[..k]
    ensures k < |s| ==> s[k] == c
  {
    if |s| == 0 then 0
    else if s[0] == c then 0
    else
      var k := 1 + IndexOf(s[1..], c);
      assert s[..k] == [s[0]] + s[1..][..k - 1];
      k
  }

  /** The first `c` after a prefix free of `c` is found at the prefix's end. */
  lemma {:induction false} IndexOfAfter(a: string, c: char, b: string)
    requires c !in a
    ensures IndexOf(a + [c] + b, c) == |a|
  {
    if |a| > 0 {
      assert (a + [c] + b)[1..] == a[1..] + [c] + b;
      IndexOfAfter(a[1..], c, b);
    }
  }

  /** `s` with no `c` at all: nothing is found. */
  lemma {:induction false} IndexOfAbsent(s: string, c: char)
    requires c !in s
    ensures IndexOf(s, c) == |s|
  {
    if |s| > 0 {
      IndexOfAbsent(s[1..], c);
    }
  }

  // ---------------------------------------------------------------- innerName

  /**
   * `os.path.basename`: the longest suffix of `p` that holds no '/'.
   * The contract pins it down: it is a suffix, it has no '/', and the
   * character in front of it, if any, is a '/'.
   */
  function Basename(p: string): (b: string)
    ensures |b| <= |p| && b == p[|p| - |b|..]
    ensures '/' !in b
    ensures |b| < |p| ==> p[|p| - |b| - 1] == '/'
  {
    if |p| == 0 || p[|p| - 1] == '/' then ""
    else Basename(p[..|p| - 1]) + [p[|p| - 1]]
  }

  /** Whatever precedes the last '/' does not affect the basename. */
  lemma {:induction false} BasenameAfterSlash(dir: string, t: string)
    requires '/' !in t
    ensures Basename(dir + "/" + t) == t
  {
    var p := dir + "/" + t;
    if |t| > 0 {
      assert p[..|p| - 1] == dir + "/" + t[..|t| - 1];
      BasenameAfterSlash(dir, t[..|t| - 1]);
      assert t == t[..|t| - 1] + [t[|t| - 1]];
    }
  }

  /**
   * `innerName`: the basename up to its first '.', found by the regular
   * expression `^[^.]+`. When that finds nothing (an empty basename, or
   * one that starts with '.') the whole basename is returned.
   */
  function InnerName(p: string): (r: string)
    ensures var b := Basename(p);
      && (|b| > 0 && b[0] != '.' ==>
            1 <= |r| <= |b| && r == b[..|r|] && '.' !in r && (|r| == |b| || b[|r|] == '.'))
      && (|b| == 0 || b[0] == '.' ==> r == b)
    ensures '/' !in r
  {
    var b := Basename(p);
    if |b| > 0 && b[0] != '.' then b[..IndexOf(b, '.')] else b
  }

  /** "/path/to/file/filename.ext" becomes "filename". */
  lemma InnerNameOfPath(dir: string, name: string, ext: string)
    requires |name| >= 1 && '/' !in name && '.' !in name && '/' !in ext
    ensures InnerName(dir + "/" + name + "." + ext) == name
  {
    assert dir + "/" + name + "." + ext == dir + "/" + (name + "." + ext);
    BasenameAfterSlash(dir, name + "." + ext);
    IndexOfAfter(name, '.', ext);
    assert (name + "." + ext)[..|name|] == name;
  }

  /** A string without '/' is its own basename. */
  lemma {:induction false} BasenameOfName(t: string)
    requires '/' !in t
    ensures Basename(t) == t
  {
    if |t| > 0 {
      BasenameOfName(t[..|t| - 1]);
      assert t == t[..|t| - 1] + [t[|t| - 1]];
    }
  }

  /** A name without a '.' and without a directory part is kept whole. */
  lemma InnerNameOfPlainName(name: string)
    requires '/' !in name && '.' !in name
    ensures InnerName(name) == name
  {
    BasenameOfName(name);
    IndexOfAbsent(name, '.');
    assert name[..|name|] == name;
  }

  /**
   * `make` refuses an INFILE whose inner name is empty, reporting it as a
   * directory: that happens exactly when the path is empty or ends in '/'.
   */
  function DefaultName(infile: string): (r: Result<string>)
    ensures r.Failure? <==> |infile| == 0 || infile[|infile| - 1] == '/'
    ensures r.Failure? ==> r.error == "INFILE appears to be a directory?"
    ensures r.Success? ==> |r.value| >= 1 && '/' !in r.value
  {
    var n := InnerName(infile);
    if |n| == 0 then Failure("INFILE appears to be a directory?") else Success(n)
  }

  // ---------------------------------------------------------------- includeSplit

  /** `[dest, inpath]`: `dest` is None when the argument names no destination. */
  datatype IncludePair = IncludePair(dest: Option<string>, path: string)

  /**
   * `includeSplit`, up to `os.path.abspath`: the regular expression
   * `^([^:]*):(.+)` takes everything before the first ':' as the
   * destination and at least one character after it, up to the first
   * newline (`.` does not match one), as the path. Without such a match
   * the whole argument is the path.
   */
  function IncludeSplit(arg: string): (r: IncludePair)
    ensures ':' !in arg ==> r == IncludePair(None, arg)
    ensures r.dest.None? ==> r.path == arg
    ensures r.dest.Some? ==>
      && ':' !in r.dest.value && |r.path| >= 1 && '\n' !in r.path
      && var k := |r.dest.value| + 1 + |r.path|;
         k <= |arg| && arg[..k] == r.dest.value + ":" + r.path && (k == |arg| || arg[k] == '\n')
  {
    var k := IndexOf(arg, ':');
    if k + 1 < |arg| && arg[k + 1] != '\n' then
      var rest := arg[k + 1..];
      var f := rest[..IndexOf(rest, '\n')];
      assert arg[..k + 1 + |f|] == arg[..k] + ":" + f;
      IncludePair(Some(arg[..k]), f)
    else
      IncludePair(None, arg)
  }

  /** "dest:path" splits back into its two halves. */
  lemma IncludeSplitRoundTrip(d: string, f: string)
    requires ':' !in d && |f| >= 1 && '\n' !in f
    ensures IncludeSplit(d + ":" + f) == IncludePair(Some(d), f)
  {
    var arg := d + ":" + f;
    IndexOfAfter(d, ':', f);
    assert arg[|d| + 1..] == f;
    IndexOfAbsent(f, '\n');
    assert arg[..|d|] == d;
  }

  /** A trailing ':' with nothing after it is no destination: the whole argument is the path. */
  lemma IncludeSplitEmptyPath(d: string)
    requires ':' !in d
    ensures IncludeSplit(d + ":") == IncludePair(None, d + ":")
  {
    IndexOfAfter(d, ':', "");
    assert d + [':'] + "" == d + ":";
  }

  // ---------------------------------------------------------------- str.split(":")

  /** `s.split(":")`: the pieces between the colons, always at least one. */
  function Split(s: string): (r: seq<string>)
    ensures |r| >= 1
    ensures forall i :: 0 <= i < |r| ==> ':' !in r[i]
    ensures ':' !in s <==> |r| == 1
    ensures ':' !in s ==> r == [s]
    decreases |s|
  {
    var k := IndexOf(s, ':');
    if k == |s| then [s] else [s[..k]] + Split(s[k + 1..])
  }

  /** `":".join(pieces)` */
  function Join(ps: seq<string>): string
    requires |ps| >= 1
  {
    if |ps| == 1 then ps[0] else ps[0] + ":" + Join(ps[1..])
  }

  /** One step of `Split` past the first ':'. */
  lemma SplitStep(s: string, k: nat)
    requires k == IndexOf(s, ':') && k < |s|
    ensures Split(s) == [s[..k]] + Split(s[k + 1..])
  {
  }

  /** One step of `Join`. */
  lemma JoinCons(x: string, rest: seq<string>)
    requires |rest| >= 1
    ensures Join([x] + rest) == x + ":" + Join(rest)
  {
    assert ([x] + rest)[1..] == rest;
  }

  /** Splitting and joining again gives back the string. */
  lemma {:induction false} JoinSplit(s: string)
    ensures Join(Split(s)) == s
    decreases |s|
  {
    var k := IndexOf(s, ':');
    if k < |s| {
      var x, t := s[..k], s[k + 1..];
      assert x + ":" + t == s by {
        assert s[k] == ':';
        assert s == s[..k] + [s[k]] + s[k + 1..];
      }
      var r := Split(t);
      assert Join(r) == t by { JoinSplit(t); }
      SplitStep(s, k);
      JoinCons(x, r);
    }
  }

  /** Colon-free pieces joined by ':' split back into the same pieces. */
  lemma {:induction false} SplitJoin(ps: seq<string>)
    requires |ps| >= 1
    requires forall i :: 0 <= i < |ps| ==> ':' !in ps[i]
    ensures Split(Join(ps)) == ps
  {
    if |ps| > 1 {
      var x, rest := ps[0], ps[1..];
      assert ps == [x] + rest;
      SplitJoin(rest);
      JoinCons(x, rest);
      var s := Join(ps);
      assert s == x + [':'] + Join(rest);
      IndexOfAfter(x, ':', Join(rest));
      assert s[..|x|] == x;
      assert s[|x| + 1..] == Join(rest);
      SplitStep(s, |x|);
    }
  }

  // ---------------------------------------------------------------- int()

  /** One or more ASCII decimal digits. */
  predicate IsDigits(s: string)
  {
    |s| >= 1 && forall i :: 0 <= i < |s| ==> '0' <= s[i] <= '9'
  }

  /**
   * `int(text)` in base 10: an optional sign and then decimal digits,
   * leading zeros allowed. None stands for the `ValueError` Python raises.
   */
  function ParseInt(s: string): (r: Option<int>)
    ensures r.Some? <==> IsDigits(s) || (|s| >= 2 && (s[0] == '-' || s[0] == '+') && IsDigits(s[1..]))
    ensures r.Some? && IsDigits(s) ==> r.value >= 0
  {
    if |s| >= 1 && (s[0] == '-' || s[0] == '+') then
      if IsDigits(s[1..]) then
        var v: int := ScreenSaver.ValueOf(s[1..]);
        Some(if s[0] == '-' then -v else v)
      else None
    else if IsDigits(s) then Some(ScreenSaver.ValueOf(s))
    else None
  }

  /** How `str(n)` writes an integer: a '-' for negatives, then the decimal digits. */
  function ShowInt(n: int): (r: string)
    ensures |r| >= 1 && ':' !in r
  {
    if n < 0 then "-" + ScreenSaver.Decimal(-n) else ScreenSaver.Decimal(n)
  }

  /** `int(str(n)) == n` */
  lemma ParseIntShow(n: int)
    ensures ParseInt(ShowInt(n)) == Some(n)
  {
    var m: nat := if n < 0 then -n else n;
    var d := ScreenSaver.Decimal(m);
    ScreenSaver.DecimalRoundTrip(m);
    assert IsDigits(d);
    if n < 0 {
      var s := "-" + d;
      assert s == ShowInt(n);
      assert s[1..] == d;
      assert s[0] == '-';
    } else {
      assert d == ShowInt(n);
      assert d[0] != '-' && d[0] != '+';
    }
  }

  // ---------------------------------------------------------------- --note

  /** `[at, [cin, status, note, velocity]]`: one event fed to the patch at sample `at`. */
  datatype NoteEvent = NoteEvent(at: int, data: seq<byte>)

  /** The outcome of parsing one `--note` string. */
  datatype NoteParse =
    | Parsed(event: NoteEvent)
    | DontUnderstand(message: string)   // the ClickException for four or more parts
    | NotAnInteger(text: string)        // the ValueError of `int(text)`

  /**
   * `[on and 9 or 8, on and 0x90 or 0x80, n & 0x7F, on and 0x7F or 0]`;
   * `n & 0x7F` on a Python int is `n` modulo 128, negative `n` included.
   */
  function EventBytes(note: int, on: bool): (d: seq<byte>)
    ensures |d| == 4 && d[2] == note % 128
  {
    [if on then 9 else 8, if on then 0x90 else 0x80, note % 128, if on then 0x7F else 0]
  }

  /**
   * The event bytes are exactly the USB-MIDI packet `MidiMessage::note`
   * builds on channel 0: a note-on at full velocity, or a note-off.
   */
  lemma EventIsNoteMessage(note: int, on: bool)
    ensures var d := EventBytes(note, on);
      MidiMessage(d[0], d[1], d[2], d[3]) == Note(0, note % 128, if on then 127 else 0)
    ensures var d := EventBytes(note, on);
      && MidiMessage(d[0], d[1], d[2], d[3]).IsNoteOn() == on
      && MidiMessage(d[0], d[1], d[2], d[3]).IsNoteOff() == !on
      && MidiMessage(d[0], d[1], d[2], d[3]).GetNote() == note % 128
  {
  }

  /** The two- and three-part forms: `int(n[0])`, `int(n[1])` and, when given, `int(n[2])`, in that order. */
  function TimedEvent(atText: string, noteText: string, flagText: Option<string>): (r: NoteParse)
    ensures r.DontUnderstand? == false
  {
    match ParseInt(atText)
    case None => NotAnInteger(atText)
    case Some(at) =>
      match ParseInt(noteText)
      case None => NotAnInteger(noteText)
      case Some(note) =>
        match flagText
        case None => Parsed(NoteEvent(at, EventBytes(note, true)))
        case Some(f) =>
          match ParseInt(f)
          case None => NotAnInteger(f)
          case Some(flag) => Parsed(NoteEvent(at, EventBytes(note, flag != 0)))
  }

  /** One iteration of the `--note` loop. */
  function ParseNoteSpec(spec: string): (r: NoteParse)
    ensures r.DontUnderstand? <==> |Split(spec)| >= 4
    ensures r.DontUnderstand? ==> r.message == "Don't understand " + spec
    ensures r.Parsed? ==> |r.event.data| == 4 && r.event.data[2] < 128
  {
    var n := Split(spec);
    if |n| == 1 then
      match ParseInt(spec)
      case None => NotAnInteger(spec)
      case Some(note) => Parsed(NoteEvent(0, EventBytes(note, true)))
    else if |n| == 2 then TimedEvent(n[0], n[1], None)
    else if |n| == 3 then TimedEvent(n[0], n[1], Some(n[2]))
    else DontUnderstand("Don't understand " + spec)
  }

  /** "N": note N on at sample 0. */
  lemma ParseBareNote(note: int)
    ensures ParseNoteSpec(ShowInt(note)) == Parsed(NoteEvent(0, EventBytes(note, true)))
  {
    ParseIntShow(note);
  }

  /** "A:N": note N on at sample A. */
  lemma ParseTimedNote(at: int, note: int)
    ensures ParseNoteSpec(ShowInt(at) + ":" + ShowInt(note)) == Parsed(NoteEvent(at, EventBytes(note, true)))
  {
    var ps := [ShowInt(at), ShowInt(note)];
    assert Join(ps) == ShowInt(at) + ":" + ShowInt(note);
    SplitJoin(ps);
    ParseIntShow(at);
    ParseIntShow(note);
  }

  /** "A:N:F": note N at sample A, on when F is nonzero and off when it is 0. */
  lemma ParseFlaggedNote(at: int, note: int, flag: int)
    ensures ParseNoteSpec(ShowInt(at) + ":" + ShowInt(note) + ":" + ShowInt(flag))
         == Parsed(NoteEvent(at, EventBytes(note, flag != 0)))
  {
    var ps := [ShowInt(at), ShowInt(note), ShowInt(flag)];
    assert Join(ps[1..]) == ShowInt(note) + ":" + ShowInt(flag);
    assert Join(ps) == ShowInt(at) + ":" + ShowInt(note) + ":" + ShowInt(flag);
    SplitJoin(ps);
    ParseIntShow(at);
    ParseIntShow(note);
    ParseIntShow(flag);
  }

  /** Four or more parts are refused, whatever they hold. */
  lemma ParseTooManyParts(ps: seq<string>)
    requires |ps| >= 4
    requires forall i :: 0 <= i < |ps| ==> ':' !in ps[i]
    ensures ParseNoteSpec(Join(ps)) == DontUnderstand("Don't understand " + Join(ps))
  {
    SplitJoin(ps);
  }

  /** The whole `--note` loop: every event in order, or the first string that stops `make`. */
  datatype Collected = Collected(events: seq<NoteEvent>) | Stopped(index: nat, reason: NoteParse)

  /**
   * The loop over the `--note` options: each string is parsed in turn
   * and its event appended; the first failure ends the command.
   */
  method CollectNotes(specs: seq<string>) returns (r: Collected)
    ensures r.Collected? <==> forall i :: 0 <= i < |specs| ==> ParseNoteSpec(specs[i]).Parsed?
    ensures r.Collected? ==>
      |r.events| == |specs| && forall i :: 0 <= i < |specs| ==> r.events[i] == ParseNoteSpec(specs[i]).event
    ensures r.Stopped? ==>
      && r.index < |specs| && r.reason == ParseNoteSpec(specs[r.index]) && !r.reason.Parsed?
      && forall i :: 0 <= i < r.index ==> ParseNoteSpec(specs[i]).Parsed?
  {
    var notes: seq<NoteEvent> := [];
    var i := 0;
    while i < |specs|
      invariant 0 <= i <= |specs| && |notes| == i
      invariant forall j :: 0 <= j < i ==> ParseNoteSpec(specs[j]).Parsed?
      invariant forall j :: 0 <= j < i ==> notes[j] == ParseNoteSpec(specs[j]).event
    {
      var p := ParseNoteSpec(specs[i]);
      if !p.Parsed? {
        return Stopped(i, p);
      }
      notes := notes + [p.event];
      i := i + 1;
    }
    return Collected(notes);
  }

  // ---------------------------------------------------------------- Patch::registerParameter

  /**
   * `_parameters` after `registerParameter(id)`: grown with zeros to
   * `id + 1` entries when it is not already longer, never shrunk.
   */
  function Registered(ps: seq<real>, id: nat): (r: seq<real>)
    ensures |r| > id && |r| >= |ps|
    ensures |r| == if |ps| <= id + 1 then id + 1 else |ps|
    ensures r[..|ps|] == ps
    ensures forall i :: |ps| <= i < |r| ==> r[i] == 0.0
  {
    if |ps| <= id + 1 then ps + seq(id + 1 - |ps|, _ => 0.0) else ps
  }

  /** Registering the same id twice is the same as registering it once. */
  lemma RegisteredIdempotent(ps: seq<real>, id: nat)
    ensures Registered(Registered(ps, id), id) == Registered(ps, id)
  {
  }

  /** The order of registration does not matter: only the largest id decides the size. */
  lemma RegisteredCommutes(ps: seq<real>, a: nat, b: nat)
    ensures Registered(Registered(ps, a), b) == Registered(Registered(ps, b), a)
    ensures |Registered(Registered(ps, a), b)| == |Registered(ps, if a < b then b else a)|
  {
    var x := Registered(Registered(ps, a), b);
    var y := Registered(Registered(ps, b), a);
    assert |x| == |y|;
    forall i | 0 <= i < |x|
      ensures x[i] == y[i]
    {
      if i < |ps| {
        assert x[i] == Registered(ps, a)[i] == ps[i];
        assert y[i] == Registered(ps, b)[i] == ps[i];
      }
    }
  }

  /** The simulator's `struct Patch`: a growable vector of parameter values. */
  class SimPatch {
    var parameters: seq<real>

    constructor()
      ensures parameters == []
    {
      parameters := [];
    }

    /** `registerParameter(id, name)`: the name is not stored. */
    method RegisterParameter(id: nat)
      modifies this
      ensures parameters == Registered(old(parameters), id)
    {
      var need := id + 1;
      if |parameters| <= need {
        parameters := parameters + seq(need - |parameters|, _ => 0.0);
      }
    }

    /** `getParameterValue(id)` indexes the vector without a bounds check. */
    function GetParameterValue(id: nat): (v: real)
      requires id < |parameters|
      reads this
      ensures v == parameters[id]
    {
      parameters[id]
    }

    /** `setParameterValue(id, v)` writes one entry and leaves the rest. */
    method SetParameterValue(id: nat, v: real)
      requires id < |parameters|
      modifies this
      ensures parameters == old(parameters)[id := v]
    {
      parameters := parameters[id := v];
    }
  }
}

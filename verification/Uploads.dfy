/** Uploaded files: the name they are stored under, and any number of uploads writing into one directory. */
module Uploads {
  import opened Prelude
  import Text

  // ---------- names ----------

  function StripSlashes(path: string): string {
    if path != "" && Last(path) == '/' then StripSlashes(Front(path)) else path
  }

  function AfterLastSlash(path: string): string {
    if path == "" || Last(path) == '/' then "" else AfterLastSlash(Front(path)) + [Last(path)]
  }

  /** `filepath.Base` on a system whose separator is '/'. */
  function Base(path: string): string {
    if path == "" then "."
    else
      var last := AfterLastSlash(StripSlashes(path));
      if last == "" then "/" else last
  }

  function Underscored(name: string): (r: string)
    ensures |r| == |name|
    ensures forall i | 0 <= i < |name| :: r[i] == if name[i] == '\\' then '_' else name[i]
  {
    seq(|name|, i requires 0 <= i < |name| => if name[i] == '\\' then '_' else name[i])
  }

  function TrimDots(name: string): string {
    if name != "" && name[0] == '.' then TrimDots(name[1..]) else name
  }

  /** `sanitizeUploadFilename`: the empty result means that no usable name remains. */
  function Sanitize(raw: string): string {
    if '\0' in raw then ""
    else
      var name := TrimDots(Underscored(Base(raw)));
      if name == "/" then "" else name
  }

  predicate PlainChar(c: char) {
    c != '/' && c != '\\' && c != '\0'
  }

  /** Not empty, one path element, and not hidden. */
  predicate SafeName(name: string) {
    name != "" && name[0] != '.' && forall i | 0 <= i < |name| :: PlainChar(name[i])
  }

  lemma {:induction false} AfterLastSlashPlain(path: string)
    ensures '/' !in AfterLastSlash(path)
    ensures forall c <- AfterLastSlash(path) :: c in path
    ensures '/' !in path ==> AfterLastSlash(path) == path
  {
    if path != "" && Last(path) != '/' {
      AfterLastSlashPlain(Front(path));
      assert path == Front(path) + [Last(path)];
    } else if path != "" {
      assert path[|path| - 1] == '/';
    }
  }

  lemma {:induction false} StripSlashesKeeps(path: string)
    ensures forall c <- StripSlashes(path) :: c in path
    ensures '/' !in path ==> StripSlashes(path) == path
  {
    if path != "" && Last(path) == '/' {
      StripSlashesKeeps(Front(path));
      assert path[|path| - 1] == '/';
    }
  }

  lemma {:induction false} TrimDotsTrims(name: string)
    ensures TrimDots(name) != "" ==> TrimDots(name)[0] != '.'
    ensures forall c <- TrimDots(name) :: c in name
    ensures name != "" && name[0] != '.' ==> TrimDots(name) == name
  {
    if name != "" && name[0] == '.' {
      TrimDotsTrims(name[1..]);
    }
  }

  /** Whatever the client sends, what is left is empty or safe to join to the directory. */
  lemma SanitizeIsSafe(raw: string)
    ensures Sanitize(raw) == "" || SafeName(Sanitize(raw))
  {
    assert Underscored("/") == "/" && TrimDots("/") == "/";
    if '\0' !in raw && Sanitize(raw) != "" {
      var last, name := AfterLastSlash(StripSlashes(raw)), Sanitize(raw);
      StripSlashesKeeps(raw);
      AfterLastSlashPlain(StripSlashes(raw));
      TrimDotsTrims(Underscored(Base(raw)));
      if last != "" || raw == "" {
        forall i | 0 <= i < |name|
          ensures PlainChar(name[i])
        {
          assert name[i] in name;
          var j :| 0 <= j < |Base(raw)| && Underscored(Base(raw))[j] == name[i];
          assert Base(raw)[j] in Base(raw);
        }
      }
    }
  }

  /** The safe names are exactly the non-empty ones that sanitising keeps. */
  lemma SafeNamesAreFixed(name: string)
    ensures SafeName(name) <==> name != "" && Sanitize(name) == name
  {
    if SafeName(name) {
      StripSlashesKeeps(name);
      AfterLastSlashPlain(name);
      TrimDotsTrims(name);
      assert Underscored(name) == name;
    } else {
      SanitizeIsSafe(name);
    }
  }

  lemma SanitizeIsIdempotent(raw: string)
    ensures Sanitize(Sanitize(raw)) == Sanitize(raw)
  {
    SanitizeIsSafe(raw);
    if Sanitize(raw) == "" {
      assert Underscored(".") == ".";
      assert TrimDots(".") == TrimDots("");
    } else {
      SafeNamesAreFixed(Sanitize(raw));
    }
  }

  // ---------- numbered alternatives ----------

  const TRIES := 10000

  /** `filepath.Ext` of a name without '/': the suffix from the last dot on. */
  function Ext(name: string): (r: string)
    ensures |r| <= |name| && name[|name| - |r|..] == r
    ensures r != "" ==> r[0] == '.'
  {
    if name == "" then ""
    else if Last(name) == '.' then "."
    else
      var r := Ext(Front(name));
      if r == "" then "" else r + [Last(name)]
  }

  function Stem(name: string): string {
    name[..|name| - |Ext(name)|]
  }

  function Numbered(stem: string, ext: string, i: nat): string {
    stem + " (" + Text.Decimal(i) + ")" + ext
  }

  /** The `i`-th name that is tried: the name itself, then numbered before the extension. */
  function Alt(name: string, i: nat): string {
    if i == 0 then name else Numbered(Stem(name), Ext(name), i)
  }

  lemma MiddleIsFixed(head: string, d: string, e: string, tail: string)
    requires head + d + tail == head + e + tail
    ensures d == e
  {
    var s := head + d + tail;
    assert |d| == |e|;
    assert d == s[|head|..|head| + |d|] && e == s[|head|..|head| + |d|];
  }

  lemma AltInjective(name: string, i: nat, j: nat)
    requires Alt(name, i) == Alt(name, j)
    ensures i == j
  {
    if i > 0 && j > 0 {
      var head, tail := Stem(name) + " (", ")" + Ext(name);
      assert Alt(name, i) == head + Text.Decimal(i) + tail;
      assert Alt(name, j) == head + Text.Decimal(j) + tail;
      MiddleIsFixed(head, Text.Decimal(i), Text.Decimal(j), tail);
      Text.DecimalInjective(i, j);
    }
  }

  lemma AltIsSafe(name: string, i: nat)
    requires SafeName(name)
    ensures SafeName(Alt(name, i))
  {
    if i > 0 {
      var ext, stem, digits := Ext(name), Stem(name), Text.Decimal(i);
      assert name == stem + ext;
      assert stem != "";
      Text.DecimalDigits(i);
      var a := Alt(name, i);
      forall k | 0 <= k < |a|
        ensures PlainChar(a[k])
      {
        if k < |stem| {
          assert a[k] == name[k];
        } else if k < |stem| + 2 {
          assert a[k] == " ("[k - |stem|];
        } else if k < |stem| + 2 + |digits| {
          assert a[k] == digits[k - |stem| - 2];
        } else if k == |stem| + 2 + |digits| {
          assert a[k] == ')';
        } else {
          var e := k - |stem| - 3 - |digits|;
          assert a[k] == ext[e] && ext[e] == name[|stem| + e];
        }
      }
    }
  }

  /** The first alternative from `i` on that is not taken. */
  function FirstFree(taken: set<string>, name: string, i: nat): Option<string>
    decreases TRIES - i
  {
    if i >= TRIES then None
    else if Alt(name, i) !in taken then Some(Alt(name, i))
    else FirstFree(taken, name, i + 1)
  }

  /** `uniqueUploadPath`. */
  method UniqueName(taken: set<string>, name: string) returns (r: Option<string>)
    ensures r == FirstFree(taken, name, 0)
  {
    if name !in taken {
      return Some(name);
    }
    var ext := Ext(name);
    var stem := Stem(name);
    var i := 1;
    while i < TRIES
      invariant 1 <= i <= TRIES
      invariant FirstFree(taken, name, 0) == FirstFree(taken, name, i)
    {
      var alt := Numbered(stem, ext, i);
      if alt !in taken {
        return Some(alt);
      }
      i := i + 1;
    }
    return None;
  }

  /** The search returns a free name and has tried every name before it; it fails only when all are taken. */
  lemma {:induction false} FirstFreeIsFirst(taken: set<string>, name: string, i: nat) returns (n: nat)
    requires i <= TRIES
    ensures i <= n <= TRIES && forall j | i <= j < n :: Alt(name, j) in taken
    ensures FirstFree(taken, name, i) == if n < TRIES then Some(Alt(name, n)) else None
    ensures n < TRIES ==> Alt(name, n) !in taken
    decreases TRIES - i
  {
    if i < TRIES && Alt(name, i) in taken {
      n := FirstFreeIsFirst(taken, name, i + 1);
    } else {
      n := i;
    }
  }

  /** The names that `n` uploads of one name take, one after the other, from a directory that holds none of them. */
  function Alts(name: string, n: nat): set<string> {
    set i | 0 <= i < n :: Alt(name, i)
  }

  lemma {:induction false} FirstFreeSkips(taken: set<string>, name: string, i: nat, n: nat)
    requires i <= n && forall j | i <= j < n :: Alt(name, j) in taken
    requires n < TRIES ==> Alt(name, n) !in taken
    requires n <= TRIES
    ensures FirstFree(taken, name, i) == if n < TRIES then Some(Alt(name, n)) else None
    decreases n - i
  {
    if i < n {
      FirstFreeSkips(taken, name, i + 1, n);
    }
  }

  /** The upload after `n` others of the same name is stored as the `n`-th alternative, up to the ten thousandth. */
  lemma RepeatedUploads(others: set<string>, name: string, n: nat)
    requires n <= TRIES && forall i | 0 <= i < TRIES :: Alt(name, i) !in others
    ensures FirstFree(others + Alts(name, n), name, 0) == if n < TRIES then Some(Alt(name, n)) else None
    ensures n < TRIES ==> Alts(name, n) + {Alt(name, n)} == Alts(name, n + 1)
  {
    var taken := others + Alts(name, n);
    if n < TRIES {
      if Alt(name, n) in Alts(name, n) {
        var j :| 0 <= j < n && Alt(name, j) == Alt(name, n);
        AltInjective(name, j, n);
      }
    }
    FirstFreeSkips(taken, name, 0, n);
  }

  // ---------- uploads side by side ----------

  /** Where an upload stands: probing its `i`-th name, about to create, writing, stored, or given up. */
  datatype Phase = Probing(i: nat) | Chosen(name: string) | Writing(name: string) | Stored(name: string) | Failed

  datatype Upload = Upload(wanted: string, data: string, phase: Phase)

  /** The directory maps names to contents. */
  datatype State = State(files: map<string, string>, uploads: seq<Upload>)

  datatype Step =
    | Begin(raw: string, data: string)
    | Probe(u: nat)
    | Create(u: nat)
    | Copy(u: nat, chunk: string)
    | CopyFails(u: nat)
    | Finish(u: nat)

  predicate In(s: State, u: nat) {
    u < |s.uploads|
  }

  predicate WritesTo(s: State, u: nat, name: string) {
    In(s, u) && s.uploads[u].phase == Writing(name)
  }

  predicate Enabled(s: State, step: Step) {
    match step
    case Begin(_, _) => true
    case Probe(u) => In(s, u) && s.uploads[u].phase.Probing?
    case Create(u) => In(s, u) && s.uploads[u].phase.Chosen?
    case Copy(u, chunk) =>
      In(s, u) && s.uploads[u].phase.Writing? && s.uploads[u].phase.name in s.files
      && s.files[s.uploads[u].phase.name] + chunk <= s.uploads[u].data
    case CopyFails(u) => In(s, u) && s.uploads[u].phase.Writing?
    case Finish(u) =>
      In(s, u) && s.uploads[u].phase.Writing? && s.uploads[u].phase.name in s.files
      && s.files[s.uploads[u].phase.name] == s.uploads[u].data
  }

  function To(s: State, u: nat, phase: Phase): State
    requires In(s, u)
  {
    s.(uploads := s.uploads[u := s.uploads[u].(phase := phase)])
  }

  /**
  A name that cannot be used is refused before anything is written; the create is
  exclusive; a failed copy removes its file.
   */
  function Next(s: State, step: Step): State
    requires Enabled(s, step)
  {
    match step
    case Begin(raw, data) =>
      var name := Sanitize(raw);
      s.(uploads := s.uploads + [Upload(name, data, if name == "" then Failed else Probing(0))])
    case Probe(u) =>
      var up := s.uploads[u];
      var i := up.phase.i;
      if i >= TRIES then To(s, u, Failed)
      else if Alt(up.wanted, i) !in s.files then To(s, u, Chosen(Alt(up.wanted, i)))
      else To(s, u, Probing(i + 1))
    case Create(u) =>
      var name := s.uploads[u].phase.name;
      if name in s.files then To(s, u, Failed)
      else To(s, u, Writing(name)).(files := s.files[name := ""])
    case Copy(u, chunk) =>
      var name := s.uploads[u].phase.name;
      s.(files := s.files[name := s.files[name] + chunk])
    case CopyFails(u) =>
      To(s, u, Failed).(files := s.files - {s.uploads[u].phase.name})
    case Finish(u) => To(s, u, Stored(s.uploads[u].phase.name))
  }

  /** The upload has a file of its own in the directory. */
  ghost predicate Owns(s: State, u: nat, name: string) {
    In(s, u) && (s.uploads[u].phase == Writing(name) || s.uploads[u].phase == Stored(name))
  }

  ghost predicate UploadOk(s: State, u: nat)
    requires In(s, u)
  {
    var up := s.uploads[u];
    match up.phase
    case Probing(_) => SafeName(up.wanted)
    case Chosen(name) => SafeName(name)
    case Writing(name) => SafeName(name) && name in s.files && s.files[name] <= up.data
    case Stored(name) => SafeName(name) && name in s.files && s.files[name] == up.data
    case Failed => true
  }

  ghost predicate Inv(s: State) {
    && (forall u: nat | u < |s.uploads| :: UploadOk(s, u))
    && (forall u: nat, v: nat, name :: Owns(s, u, name) && Owns(s, v, name) ==> u == v)
  }

  lemma OwnStepOk(s: State, step: Step)
    requires Inv(s) && Enabled(s, step) && !step.Begin?
    ensures UploadOk(Next(s, step), step.u)
  {
    var up := s.uploads[step.u];
    assert UploadOk(s, step.u);
    if up.phase.Probing? {
      AltIsSafe(up.wanted, up.phase.i);
    }
  }

  lemma OtherStepOk(s: State, step: Step, u: nat)
    requires Inv(s) && Enabled(s, step) && In(s, u) && (step.Begin? || step.u != u)
    ensures UploadOk(Next(s, step), u)
  {
    var phase := s.uploads[u].phase;
    assert Next(s, step).uploads[u] == s.uploads[u] && UploadOk(s, u);
    if phase.Writing? || phase.Stored? {
      assert Owns(s, u, phase.name);
      if step.Copy? || step.CopyFails? {
        assert Owns(s, step.u, s.uploads[step.u].phase.name);
      }
    }
  }

  lemma OwnsStep(s: State, step: Step, u: nat, name: string)
    requires Inv(s) && Enabled(s, step) && Owns(Next(s, step), u, name)
    ensures Owns(s, u, name) || (step == Create(u) && name !in s.files)
  {
  }

  lemma InvStep(s: State, step: Step)
    requires Inv(s) && Enabled(s, step)
    ensures Inv(Next(s, step))
  {
    var t := Next(s, step);
    forall u: nat | u < |t.uploads|
      ensures UploadOk(t, u)
    {
      if u < |s.uploads| {
        if step.Begin? || step.u != u {
          OtherStepOk(s, step, u);
        } else {
          OwnStepOk(s, step);
        }
      } else {
        SanitizeIsSafe(step.raw);
      }
    }
    forall u: nat, v: nat, name | Owns(t, u, name) && Owns(t, v, name)
      ensures u == v
    {
      OwnsStep(s, step, u, name);
      OwnsStep(s, step, v, name);
      if Owns(s, u, name) {
        assert UploadOk(s, u);
      }
      if Owns(s, v, name) {
        assert UploadOk(s, v);
      }
    }
  }

  datatype Run = Run(states: seq<State>, steps: seq<Step>) {
    /** Nothing but uploads touches the directory, which may hold files at the start. */
    ghost predicate Valid() {
      && |states| == |steps| + 1 && states[0].uploads == []
      && forall k | 0 <= k < |steps| ::
           Enabled(states[k], steps[k]) && states[k + 1] == Next(states[k], steps[k])
    }
  }

  lemma {:induction false} InvAlways(r: Run, n: nat)
    requires r.Valid() && n <= |r.steps|
    ensures Inv(r.states[n])
  {
    if n > 0 {
      InvAlways(r, n - 1);
      InvStep(r.states[n - 1], r.steps[n - 1]);
    }
  }

  /** A file that no upload is writing: it was there before, or it is stored. */
  ghost predicate Settled(s: State, name: string) {
    name in s.files && forall u: nat :: !WritesTo(s, u, name)
  }

  lemma SettledStep(s: State, step: Step, name: string)
    requires Enabled(s, step) && Settled(s, name)
    ensures Settled(Next(s, step), name) && Next(s, step).files[name] == s.files[name]
  {
    var t := Next(s, step);
    forall u: nat
      ensures !WritesTo(t, u, name)
    {
      assert !WritesTo(s, u, name);
    }
    if step.Copy? || step.CopyFails? {
      assert !WritesTo(s, step.u, name);
    }
  }

  /** Over any interleaving of uploads with any names, no file that already existed is changed or removed. */
  lemma {:induction false} NothingIsOverwritten(r: Run, a: nat, b: nat, name: string)
    requires r.Valid() && a <= b <= |r.steps| && Settled(r.states[a], name)
    ensures Settled(r.states[b], name) && r.states[b].files[name] == r.states[a].files[name]
    decreases b
  {
    if a < b {
      NothingIsOverwritten(r, a, b - 1, name);
      SettledStep(r.states[b - 1], r.steps[b - 1], name);
    }
  }

  /** A stored upload is under a safe name of its own, holds all its data, and stays so. */
  lemma StoredForGood(r: Run, a: nat, b: nat, u: nat)
    requires r.Valid() && a <= b <= |r.steps| && In(r.states[a], u) && r.states[a].uploads[u].phase.Stored?
    ensures var up := r.states[a].uploads[u];
            && SafeName(up.phase.name)
            && up.phase.name in r.states[b].files && r.states[b].files[up.phase.name] == up.data
  {
    InvAlways(r, a);
    var s, name := r.states[a], r.states[a].uploads[u].phase.name;
    assert UploadOk(s, u) && Owns(s, u, name);
    forall v: nat
      ensures !WritesTo(s, v, name)
    {
      if WritesTo(s, v, name) {
        assert Owns(s, v, name);
      }
    }
    NothingIsOverwritten(r, a, b, name);
  }

  // ---------- the names that uploads get ----------

  /** The file of an upload, once it has one, is an alternative of the name it asked for. */
  ghost predicate Named(up: Upload) {
    match up.phase
    case Chosen(name) => IsAlt(up.wanted, name)
    case Writing(name) => IsAlt(up.wanted, name)
    case Stored(name) => IsAlt(up.wanted, name)
    case _ => true
  }

  ghost predicate IsAlt(wanted: string, name: string) {
    exists i: nat :: i < TRIES && name == Alt(wanted, i)
  }

  ghost predicate AllNamed(s: State) {
    forall u: nat | u < |s.uploads| :: Named(s.uploads[u])
  }

  lemma NamedStep(s: State, step: Step)
    requires AllNamed(s) && Enabled(s, step)
    ensures AllNamed(Next(s, step))
  {
    forall u: nat | u < |Next(s, step).uploads|
      ensures Named(Next(s, step).uploads[u])
    {
      if u < |s.uploads| {
        assert Named(s.uploads[u]);
      }
    }
  }

  /**
  In every interleaving the name that an upload chose, writes or has stored is one
  of the alternatives it may try.
   */
  lemma {:induction false} NamesAreAlternatives(r: Run, n: nat)
    requires r.Valid() && n <= |r.steps|
    ensures AllNamed(r.states[n])
  {
    if n > 0 {
      NamesAreAlternatives(r, n - 1);
      NamedStep(r.states[n - 1], r.steps[n - 1]);
    }
  }

  // ---------- uploads one after the other ----------

  /** Between `a` and `b` one upload begins and only it takes steps. */
  ghost predicate Solo(r: Run, a: nat, b: nat)
    requires r.Valid()
  {
    && a < b <= |r.steps| && r.steps[a].Begin?
    && forall k | a < k < b :: !r.steps[k].Begin? && r.steps[k].u == |r.states[a].uploads|
  }

  /** Where an upload that started alone in state `s` stands in `t`: it searches, and takes, what `FirstFree` says. */
  ghost predicate SoloAt(s: State, t: State, wanted: string, data: string) {
    var u, first := |s.uploads|, FirstFree(s.files.Keys, wanted, 0);
    && |t.uploads| == u + 1 && t.uploads[..u] == s.uploads
    && t.uploads[u].wanted == wanted && t.uploads[u].data == data
    && match t.uploads[u].phase {
         case Probing(i) => t.files == s.files && first == FirstFree(s.files.Keys, wanted, i)
         case Chosen(name) => t.files == s.files && first == Some(name) && name !in s.files
         case Writing(name) =>
           first == Some(name) && name !in s.files && name in t.files && t.files == s.files[name := t.files[name]]
         case Stored(name) => first == Some(name) && name !in s.files && t.files == s.files[name := data]
         case Failed => t.files == s.files
       }
  }

  lemma SoloStep(s: State, t: State, step: Step, wanted: string, data: string)
    requires SoloAt(s, t, wanted, data) && Enabled(t, step) && !step.Begin? && step.u == |s.uploads|
    ensures SoloAt(s, Next(t, step), wanted, data)
  {
    assert Next(t, step).uploads[..|s.uploads|] == t.uploads[..|s.uploads|];
  }

  lemma SoloBegin(s: State, step: Step)
    requires step.Begin?
    ensures SoloAt(s, Next(s, step), Sanitize(step.raw), step.data)
  {
    assert Next(s, step).uploads[..|s.uploads|] == s.uploads;
  }

  /** An upload that runs alone is stored under the first free alternative, adds that file and changes no other. */
  lemma {:induction false} SoloUpload(r: Run, a: nat, b: nat)
    requires r.Valid() && Solo(r, a, b)
    ensures SoloAt(r.states[a], r.states[b], Sanitize(r.steps[a].raw), r.steps[a].data)
    decreases b
  {
    if b == a + 1 {
      SoloBegin(r.states[a], r.steps[a]);
    } else {
      SoloUpload(r, a, b - 1);
      SoloStep(r.states[a], r.states[b - 1], r.steps[b - 1], Sanitize(r.steps[a].raw), r.steps[a].data);
    }
  }

  /** Between `a` and `b` one upload runs alone, for this name, and is stored. */
  ghost predicate StoresAlone(r: Run, a: nat, b: nat, name: string)
    requires r.Valid()
  {
    && Solo(r, a, b) && Sanitize(r.steps[a].raw) == name
    && |r.states[b].uploads| > 0 && Last(r.states[b].uploads).phase.Stored?
  }

  /** One such upload between any two neighbouring cuts. */
  ghost predicate OneByOne(r: Run, cuts: seq<nat>, name: string)
    requires r.Valid()
  {
    && cuts != [] && (forall k | 0 <= k < |cuts| :: cuts[k] <= |r.steps|)
    && forall k, m | 0 <= k && m == k + 1 && m < |cuts| :: StoresAlone(r, cuts[k], cuts[m], name)
  }

  /** From `s` to `t`, `n` uploads of `name` were stored under its first `n` alternatives, and nothing else. */
  ghost predicate StoredInTurn(s: State, t: State, name: string, n: nat) {
    && n <= TRIES && |t.uploads| == |s.uploads| + n
    && (forall k: nat | k < n :: t.uploads[|s.uploads| + k].phase == Stored(Alt(name, k)))
    && t.files.Keys == s.files.Keys + Alts(name, n)
  }

  lemma StoredNext(s: State, t: State, others: set<string>, name: string, n: nat, data: string)
    requires n <= TRIES && forall i | 0 <= i < TRIES :: Alt(name, i) !in others
    requires s.files.Keys == others + Alts(name, n)
    requires SoloAt(s, t, name, data) && t.uploads[|s.uploads|].phase.Stored?
    ensures n < TRIES && t.uploads == s.uploads + [Upload(name, data, Stored(Alt(name, n)))]
    ensures t.files.Keys == others + Alts(name, n + 1)
  {
    RepeatedUploads(others, name, n);
    assert t.uploads == t.uploads[..|s.uploads|] + [t.uploads[|s.uploads|]];
    assert t.files.Keys == s.files.Keys + {Alt(name, n)};
  }

  lemma OneMoreInTurn(s: State, m: State, t: State, name: string, n: nat, data: string)
    requires forall i | 0 <= i < TRIES :: Alt(name, i) !in s.files
    requires StoredInTurn(s, m, name, n) && SoloAt(m, t, name, data) && t.uploads[|m.uploads|].phase.Stored?
    ensures StoredInTurn(s, t, name, n + 1)
  {
    StoredNext(m, t, s.files.Keys, name, n, data);
    forall k: nat | k < n + 1
      ensures t.uploads[|s.uploads| + k].phase == Stored(Alt(name, k))
    {
      if k < n {
        assert t.uploads[|s.uploads| + k] == m.uploads[|s.uploads| + k];
      }
    }
  }

  /**
  Uploads of one name, one after the other, into a directory that holds none of
  its alternatives: the first keeps the name, the `k`-th after it gets number
  `k`, there can be ten thousand of them, and no other file appears.
   */
  lemma {:induction false} UploadsInTurn(r: Run, cuts: seq<nat>, name: string)
    requires r.Valid() && OneByOne(r, cuts, name)
    requires forall i | 0 <= i < TRIES :: Alt(name, i) !in r.states[cuts[0]].files
    ensures StoredInTurn(r.states[cuts[0]], r.states[Last(cuts)], name, |cuts| - 1)
    decreases |cuts|
  {
    if |cuts| == 1 {
      assert Alts(name, 0) == {};
    } else {
      var a, b := cuts[|cuts| - 2], cuts[|cuts| - 1];
      EarlierCuts(r, cuts, name);
      UploadsInTurn(r, Front(cuts), name);
      assert StoresAlone(r, a, b, name);
      SoloUpload(r, a, b);
      OneMoreInTurn(r.states[cuts[0]], r.states[a], r.states[b], name, |cuts| - 2, r.steps[a].data);
    }
  }

  lemma EarlierCuts(r: Run, cuts: seq<nat>, name: string)
    requires r.Valid() && OneByOne(r, cuts, name) && |cuts| > 1
    ensures OneByOne(r, Front(cuts), name)
  {
    forall k, m | 0 <= k && m == k + 1 && m < |cuts| - 1
      ensures StoresAlone(r, Front(cuts)[k], Front(cuts)[m], name)
    {
      assert StoresAlone(r, cuts[k], cuts[m], name);
    }
  }

  /** When all ten thousand are taken, the next upload of that name stores nothing. */
  lemma NoNameLeft(r: Run, a: nat, b: nat)
    requires r.Valid() && Solo(r, a, b)
    requires forall i | 0 <= i < TRIES :: Alt(Sanitize(r.steps[a].raw), i) in r.states[a].files
    ensures r.states[b].files == r.states[a].files && |r.states[b].uploads| == |r.states[a].uploads| + 1
    ensures Last(r.states[b].uploads).phase.Probing? || Last(r.states[b].uploads).phase == Failed
  {
    SoloUpload(r, a, b);
    FirstFreeSkips(r.states[a].files.Keys, Sanitize(r.steps[a].raw), 0, TRIES);
  }
}

/** The names of uploads written out: what is left of a raw name, and what is put before the extension. */
module UploadNames {
  import opened Prelude
  import opened Uploads
  import Text

  // ---------- what sanitising leaves ----------

  ghost predicate AllAre(s: string, c: char) {
    forall i | 0 <= i < |s| :: s[i] == c
  }

  /** A raw name in parts: directories, leading dots, the name proper, trailing slashes. */
  ghost predicate Parts(raw: string, dir: string, dots: string, name: string, slashes: string) {
    && raw == dir + (dots + name) + slashes
    && (dir == "" || Last(dir) == '/') && AllAre(dots, '.') && AllAre(slashes, '/')
    && dots + name != "" && '/' !in name && (name == "" || name[0] != '.')
  }

  lemma {:induction false} StripsSlashes(path: string, slashes: string)
    requires AllAre(slashes, '/') && path != "" && Last(path) != '/'
    ensures StripSlashes(path + slashes) == path
  {
    if slashes == "" {
      assert path + slashes == path;
    } else {
      assert Front(path + slashes) == path + Front(slashes) && Last(path + slashes) == Last(slashes);
      assert slashes[|slashes| - 1] == '/';
      StripsSlashes(path, Front(slashes));
    }
  }

  lemma {:induction false} TakesLast(dir: string, name: string)
    requires (dir == "" || Last(dir) == '/') && '/' !in name
    ensures AfterLastSlash(dir + name) == name
  {
    if name == "" {
      assert dir + name == dir;
    } else {
      var front := Front(name);
      assert Front(dir + name) == dir + front && Last(dir + name) == Last(name);
      assert name[|name| - 1] != '/';
      assert forall i | 0 <= i < |front| :: front[i] == name[i];
      TakesLast(dir, front);
      assert name == front + [Last(name)];
    }
  }

  lemma {:induction false} DropsDots(dots: string, name: string)
    requires AllAre(dots, '.') && (name == "" || name[0] != '.')
    ensures TrimDots(dots + name) == name
  {
    if dots == "" {
      assert dots + name == name;
    } else {
      assert (dots + name)[1..] == dots[1..] + name && (dots + name)[0] == dots[0];
      DropsDots(dots[1..], name);
    }
  }

  lemma NoSlash(dots: string, name: string)
    requires AllAre(dots, '.') && '/' !in name
    ensures '/' !in dots + name
  {
    forall i | 0 <= i < |dots + name|
      ensures (dots + name)[i] != '/'
    {
      if i < |dots| {
        assert (dots + name)[i] == dots[i];
      } else {
        assert (dots + name)[i] == name[i - |dots|] && name[i - |dots|] in name;
      }
    }
  }

  lemma BaseIs(dir: string, base: string, slashes: string)
    requires base != "" && '/' !in base && (dir == "" || Last(dir) == '/') && AllAre(slashes, '/')
    ensures Base(dir + base + slashes) == base
  {
    assert base[|base| - 1] in base;
    assert Last(dir + base) == Last(base);
    StripsSlashes(dir + base, slashes);
    TakesLast(dir, base);
  }

  /**
  What is stored of a raw name: the last element of the path, without its leading
  dots, and with '_' for each backslash.
   */
  lemma SanitizeIs(raw: string, dir: string, dots: string, name: string, slashes: string)
    requires Parts(raw, dir, dots, name, slashes) && '\0' !in raw
    ensures |Sanitize(raw)| == |name|
    ensures forall i | 0 <= i < |name| :: Sanitize(raw)[i] == if name[i] == '\\' then '_' else name[i]
  {
    NoSlash(dots, name);
    assert dir + (dots + name) + slashes == raw;
    BaseIs(dir, dots + name, slashes);
    assert Underscored(dots + name) == dots + Underscored(name);
    if name != "" {
      assert name[0] in name;
      assert Underscored(name)[0] != '.' && Underscored(name)[0] != '/';
    }
    DropsDots(dots, Underscored(name));
  }

  lemma {:induction false} OnlySlashes(raw: string)
    requires AllAre(raw, '/')
    ensures StripSlashes(raw) == ""
  {
    if raw != "" {
      assert raw[|raw| - 1] == '/';
      OnlySlashes(Front(raw));
    }
  }

  /** Nothing is left of a name with a NUL in it, of the empty name, or of slashes alone. */
  lemma SanitizeRefuses(raw: string)
    requires '\0' in raw || AllAre(raw, '/')
    ensures Sanitize(raw) == ""
  {
    if '\0' !in raw {
      OnlySlashes(raw);
      if raw == "" {
        assert TrimDots(Underscored(".")) == TrimDots(Underscored(".")[1..]);
      } else {
        assert Underscored("/") == "/" && TrimDots("/") == "/";
      }
    }
  }

  lemma {:induction false} SplitTrailing(raw: string, c: char) returns (head: string, tail: string)
    ensures raw == head + tail && AllAre(tail, c) && (head == "" || Last(head) != c)
  {
    if raw != "" && Last(raw) == c {
      head, tail := SplitTrailing(Front(raw), c);
      assert raw == Front(raw) + [c] && head + (tail + [c]) == (head + tail) + [c];
      tail := tail + [c];
    } else {
      head, tail := raw, "";
    }
  }

  lemma {:induction false} SplitLastElement(path: string) returns (dir: string, base: string)
    ensures path == dir + base && (dir == "" || Last(dir) == '/') && '/' !in base
  {
    if path == "" || Last(path) == '/' {
      dir, base := path, "";
    } else {
      dir, base := SplitLastElement(Front(path));
      assert path == Front(path) + [Last(path)] && dir + (base + [Last(path)]) == (dir + base) + [Last(path)];
      base := base + [Last(path)];
    }
  }

  lemma {:induction false} SplitLeadingDots(base: string) returns (dots: string, name: string)
    ensures base == dots + name && AllAre(dots, '.') && (name == "" || name[0] != '.')
  {
    if base != "" && base[0] == '.' {
      dots, name := SplitLeadingDots(base[1..]);
      assert base == ['.'] + base[1..] && ['.'] + (dots + name) == (['.'] + dots) + name;
      dots := ['.'] + dots;
    } else {
      dots, name := "", base;
    }
  }

  /** Every raw name is of one of these two kinds. */
  lemma EveryNameHasParts(raw: string) returns (dir: string, dots: string, name: string, slashes: string)
    ensures AllAre(raw, '/') || Parts(raw, dir, dots, name, slashes)
  {
    var head, base;
    head, slashes := SplitTrailing(raw, '/');
    dir, base := SplitLastElement(head);
    dots, name := SplitLeadingDots(base);
    if head == "" {
      assert raw == slashes;
    } else {
      assert base == "" ==> head == dir;
      assert base != "";
      forall i | 0 <= i < |name|
        ensures name[i] != '/'
      {
        assert base[|dots| + i] == name[i] && name[i] == base[|dots| + i] && base[|dots| + i] in base;
      }
    }
  }

  // ---------- numbers go before the extension ----------

  lemma {:induction false} ExtIs(stem: string, e: string)
    requires '.' !in e
    ensures Ext(stem + "." + e) == "." + e
  {
    var name := stem + "." + e;
    if e == "" {
      assert Last(name) == '.';
    } else {
      var front := Front(e);
      assert Front(name) == stem + "." + front && Last(name) == Last(e);
      assert e[|e| - 1] in e;
      assert forall i | 0 <= i < |front| :: front[i] == e[i];
      ExtIs(stem, front);
      assert "." + e == ("." + front) + [Last(e)];
    }
  }

  lemma {:induction false} NoExt(name: string)
    requires '.' !in name
    ensures Ext(name) == ""
  {
    if name != "" {
      assert name[|name| - 1] in name;
      assert forall i | 0 <= i < |Front(name)| :: Front(name)[i] == name[i];
      NoExt(Front(name));
    }
  }

  /** The `k`-th upload of `stem.e` is stored under this name. */
  function NumberedFile(stem: string, e: string, k: nat): string {
    if k == 0 then stem + "." + e else stem + " (" + Text.Decimal(k) + ")." + e
  }

  /** The `k`-th upload of a name without a dot is stored under this one. */
  function NumberedPlain(name: string, k: nat): string {
    if k == 0 then name else name + " (" + Text.Decimal(k) + ")"
  }

  function NumberedFiles(stem: string, e: string): nat -> string {
    (k: nat) => NumberedFile(stem, e, k)
  }

  function NumberedPlains(name: string): nat -> string {
    (k: nat) => NumberedPlain(name, k)
  }

  lemma Rejoined(a: string, b: string, c: string, e: string)
    ensures (a + b) + (c + e) == (a + (b + c)) + e
  {
  }

  lemma AltIsNumberedFile(stem: string, e: string, k: nat)
    requires '.' !in e
    ensures Alt(stem + "." + e, k) == NumberedFile(stem, e, k)
  {
    var name := stem + "." + e;
    ExtIs(stem, e);
    assert name == stem + ("." + e);
    assert Stem(name) == stem;
    if k > 0 {
      assert Alt(name, k) == Numbered(stem, "." + e, k);
      Rejoined(stem + " (" + Text.Decimal(k), ")", ".", e);
    }
  }

  lemma AltIsNumberedPlain(name: string, k: nat)
    requires '.' !in name
    ensures Alt(name, k) == NumberedPlain(name, k)
  {
    NoExt(name);
    assert name[..|name| - 0] == name;
    var d := Text.Decimal(k);
    assert name + " (" + d + ")" + "" == name + " (" + d + ")";
  }

  /** From `s` to `t`, the `k`-th of `n` new uploads was stored as `names(k)`, and no other file appeared. */
  ghost predicate StoredAs(s: State, t: State, n: nat, names: nat -> string) {
    && n <= 10000 && |t.uploads| == |s.uploads| + n
    && (forall k: nat | k < n :: t.uploads[|s.uploads| + k].phase == Stored(names(k)))
    && (forall file :: file in t.files <==> file in s.files || exists k: nat :: k < n && file == names(k))
  }

  lemma StoredAsNames(s: State, t: State, name: string, n: nat, names: nat -> string)
    requires StoredInTurn(s, t, name, n) && forall k: nat :: names(k) == Alt(name, k)
    ensures StoredAs(s, t, n, names)
  {
    forall file
      ensures file in Alts(name, n) <==> exists k: nat :: k < n && file == names(k)
    {
      if file in Alts(name, n) {
        var k :| 0 <= k < n && Alt(name, k) == file;
        assert file == names(k);
      }
      if k: nat :| k < n && file == names(k) {
        assert Alt(name, k) in Alts(name, n);
      }
    }
  }

  /**
  `n` uploads of `stem.e`, one after the other, get the name itself and then the
  numbers from 1 before the extension.
   */
  lemma FilesInTurn(r: Run, cuts: seq<nat>, stem: string, e: string)
    requires r.Valid() && '.' !in e && OneByOne(r, cuts, stem + "." + e)
    requires forall k: nat | k < 10000 :: NumberedFile(stem, e, k) !in r.states[cuts[0]].files
    ensures StoredAs(r.states[cuts[0]], r.states[Last(cuts)], |cuts| - 1, NumberedFiles(stem, e))
  {
    var name, names := stem + "." + e, NumberedFiles(stem, e);
    forall k: nat
      ensures Alt(name, k) == names(k)
    {
      AltIsNumberedFile(stem, e, k);
    }
    UploadsInTurn(r, cuts, name);
    StoredAsNames(r.states[cuts[0]], r.states[Last(cuts)], name, |cuts| - 1, names);
  }

  /** Uploads of a name without a dot get the numbers at the end. */
  lemma PlainFilesInTurn(r: Run, cuts: seq<nat>, name: string)
    requires r.Valid() && '.' !in name && OneByOne(r, cuts, name)
    requires forall k: nat | k < 10000 :: NumberedPlain(name, k) !in r.states[cuts[0]].files
    ensures StoredAs(r.states[cuts[0]], r.states[Last(cuts)], |cuts| - 1, NumberedPlains(name))
  {
    var names := NumberedPlains(name);
    forall k: nat
      ensures Alt(name, k) == names(k)
    {
      AltIsNumberedPlain(name, k);
    }
    UploadsInTurn(r, cuts, name);
    StoredAsNames(r.states[cuts[0]], r.states[Last(cuts)], name, |cuts| - 1, names);
  }

  /** The search gives `stem.e`, or the first of "stem (1).e", "stem (2).e", ... that is free, up to number 9999. */
  lemma SearchNumbersFiles(taken: set<string>, stem: string, e: string)
    requires '.' !in e
    ensures match FirstFree(taken, stem + "." + e, 0)
            case Some(file) =>
              exists n: nat :: n < 10000 && file == NumberedFile(stem, e, n) && file !in taken
                               && forall k: nat | k < n :: NumberedFile(stem, e, k) in taken
            case None => forall k: nat | k < 10000 :: NumberedFile(stem, e, k) in taken
  {
    var n := FirstFreeIsFirst(taken, stem + "." + e, 0);
    forall k: nat
      ensures Alt(stem + "." + e, k) == NumberedFile(stem, e, k)
    {
      AltIsNumberedFile(stem, e, k);
    }
  }

  lemma SearchNumbersPlain(taken: set<string>, name: string)
    requires '.' !in name
    ensures match FirstFree(taken, name, 0)
            case Some(file) =>
              exists n: nat :: n < 10000 && file == NumberedPlain(name, n) && file !in taken
                               && forall k: nat | k < n :: NumberedPlain(name, k) in taken
            case None => forall k: nat | k < 10000 :: NumberedPlain(name, k) in taken
  {
    var n := FirstFreeIsFirst(taken, name, 0);
    forall k: nat
      ensures Alt(name, k) == NumberedPlain(name, k)
    {
      AltIsNumberedPlain(name, k);
    }
  }

  // ---------- uploads do get stored ----------

  lemma Continue(r: Run, a: nat, step: Step) returns (t: Run)
    requires r.Valid() && Solo(r, a, |r.steps|) && Enabled(Last(r.states), step)
    requires !step.Begin? && step.u == |r.states[a].uploads|
    ensures t.Valid() && r.states <= t.states && Solo(t, a, |t.steps|)
    ensures Last(t.states) == Next(Last(r.states), step)
  {
    t := Run(r.states + [Next(Last(r.states), step)], r.steps + [step]);
  }

  lemma Start(r: Run, raw: string, data: string) returns (t: Run)
    requires r.Valid()
    ensures t.Valid() && r.states <= t.states && Solo(t, |r.steps|, |t.steps|)
    ensures t.steps[|r.steps|] == Begin(raw, data) && Last(t.states) == Next(Last(r.states), Begin(raw, data))
  {
    t := Run(r.states + [Next(Last(r.states), Begin(raw, data))], r.steps + [Begin(raw, data)]);
  }

  ghost predicate Stands(r: Run, a: nat, up: Upload)
    requires r.Valid() && a < |r.states|
  {
    var u, s := |r.states[a].uploads|, Last(r.states);
    |s.uploads| == u + 1 && s.uploads[u] == up
  }

  lemma {:induction false} ProbeOn(r: Run, a: nat, i: nat, wanted: string, data: string, name: string) returns (t: Run)
    requires r.Valid() && Solo(r, a, |r.steps|) && Stands(r, a, Upload(wanted, data, Probing(i)))
    requires FirstFree(Last(r.states).files.Keys, wanted, i) == Some(name)
    ensures t.Valid() && r.states <= t.states && Solo(t, a, |t.steps|)
    ensures Stands(t, a, Upload(wanted, data, Chosen(name))) && Last(t.states).files == Last(r.states).files
    ensures name !in Last(r.states).files
    decreases TRIES - i
  {
    t := Continue(r, a, Probe(|r.states[a].uploads|));
    if Alt(wanted, i) in Last(r.states).files {
      t := ProbeOn(t, a, i + 1, wanted, data, name);
    }
  }

  lemma WriteOut(r: Run, a: nat, wanted: string, data: string, name: string) returns (t: Run)
    requires r.Valid() && Solo(r, a, |r.steps|) && Stands(r, a, Upload(wanted, data, Chosen(name)))
    requires name !in Last(r.states).files
    ensures t.Valid() && r.states <= t.states && Solo(t, a, |t.steps|)
    ensures Stands(t, a, Upload(wanted, data, Stored(name))) && Last(t.states).files == Last(r.states).files[name := data]
  {
    var u, files := |r.states[a].uploads|, Last(r.states).files;
    t := Continue(r, a, Create(u));
    assert Stands(t, a, Upload(wanted, data, Writing(name))) && Last(t.states).files == files[name := ""];
    assert "" + data == data;
    t := Continue(t, a, Copy(u, data));
    assert Last(t.states).files == files[name := data];
    t := Continue(t, a, Finish(u));
  }

  /**
  Any run can go on with an upload that is stored: if something is left of its
  name and a number is free, under the first such name, with all its data.
   */
  lemma UploadCompletes(r: Run, raw: string, data: string) returns (t: Run)
    requires r.Valid() && Sanitize(raw) != ""
    requires FirstFree(Last(r.states).files.Keys, Sanitize(raw), 0).Some?
    ensures t.Valid() && r.states <= t.states && Solo(t, |r.steps|, |t.steps|) && t.states[|r.steps|] == Last(r.states)
    ensures var name := FirstFree(Last(r.states).files.Keys, Sanitize(raw), 0).value;
            && |Last(t.states).uploads| == |Last(r.states).uploads| + 1
            && Last(Last(t.states).uploads) == Upload(Sanitize(raw), data, Stored(name))
            && Last(t.states).files == Last(r.states).files[name := data]
  {
    var a, wanted := |r.steps|, Sanitize(raw);
    var name := FirstFree(Last(r.states).files.Keys, wanted, 0).value;
    t := Start(r, raw, data);
    assert t.states[a] == Last(r.states);
    t := ProbeOn(t, a, 0, wanted, data, name);
    t := WriteOut(t, a, wanted, data, name);
  }
}

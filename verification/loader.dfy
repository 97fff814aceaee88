/**
 * The spreadsheet loaders: which files of a directory listing are read, in
 * which order, what an unreadable file does, and the header-caption rows that
 * some scripts drop afterwards. A listing entry carries the rows its sheet
 * holds; reading itself is not modelled.
 */
module Loader {
  import opened Tables
  import opened Text

  /**
   * One entry of a directory listing, in the order the walk returns it:
   * the directory parts between the searched directory and the entry, its
   * name, whether it is a regular file, whether `read_excel` succeeds on it,
   * and the rows it yields when it does.
   */
  datatype SheetFile<R> = SheetFile(dirs: seq<string>, name: string, isFile: bool, readable: bool, rows: seq<R>)

  /** The frames read so far, in reading order, or the exception of the first file that failed. */
  datatype Loaded<R> = Frames(frames: seq<seq<R>>) | Failed(error: Error)

  /** What the scripts do with a file that cannot be read. */
  datatype OnUnreadable = Skip | Raise

  /** Office lock files, `~$name.xlsx`. */
  predicate IsLock(name: string)
  {
    StartsWith(name, "~$")
  }

  function NotLock<R>(): SheetFile<R> -> bool
  {
    (f: SheetFile<R>) => !IsLock(f.name)
  }

  /** `glob('*' + suffix)` in the searched directory itself; a leading `*` does not match a leading dot. */
  predicate Globbed<R>(f: SheetFile<R>, suffix: string)
  {
    f.dirs == [] && EndsWith(f.name, suffix) && !StartsWith(f.name, ".")
  }

  /** A file the loader of the glob-based scripts tries to read for one pattern. */
  predicate Selected<R>(f: SheetFile<R>, suffix: string)
  {
    Globbed(f, suffix) && !IsLock(f.name)
  }

  /** The files of the listing that one pattern selects, in listing order. */
  function Matching<R>(listing: seq<SheetFile<R>>, suffix: string): seq<SheetFile<R>>
  {
    if listing == [] then []
    else
      var f := listing[|listing| - 1];
      Matching(listing[..|listing| - 1], suffix) + (if Selected(f, suffix) then [f] else [])
  }

  lemma {:induction false} MatchingConcat<R>(a: seq<SheetFile<R>>, b: seq<SheetFile<R>>, suffix: string)
    ensures Matching(a + b, suffix) == Matching(a, suffix) + Matching(b, suffix)
  {
    if b == [] {
      assert a + b == a;
    } else {
      var f := b[|b| - 1];
      var b' := b[..|b| - 1];
      assert (a + b)[..|a + b| - 1] == a + b';
      assert (a + b)[|a + b| - 1] == f;
      MatchingConcat(a, b', suffix);
    }
  }

  /** The files read, pattern by pattern, each pattern in listing order. */
  function Candidates<R>(listing: seq<SheetFile<R>>, suffixes: seq<string>): seq<SheetFile<R>>
  {
    if suffixes == [] then []
    else Candidates(listing, suffixes[..|suffixes| - 1]) + Matching(listing, suffixes[|suffixes| - 1])
  }

  /** One iteration of a loader loop over a file it tries to read. */
  function Step<R>(acc: Loaded<R>, f: SheetFile<R>, policy: OnUnreadable): Loaded<R>
  {
    if acc.Failed? then acc
    else if f.isFile && f.readable then Frames(acc.frames + [f.rows])
    else if policy == Skip then acc
    else Failed(ReadFailed(f.name))
  }

  /** The loader loop over the files it tries to read, in order. */
  function ReadAll<R>(files: seq<SheetFile<R>>, policy: OnUnreadable): Loaded<R>
  {
    if files == [] then Frames([])
    else Step(ReadAll(files[..|files| - 1], policy), files[|files| - 1], policy)
  }

  /** What the glob-based `read_and_concat` loops produce before the final concatenation. */
  function Load<R>(listing: seq<SheetFile<R>>, suffixes: seq<string>, policy: OnUnreadable): Loaded<R>
  {
    ReadAll(Candidates(listing, suffixes), policy)
  }

  /** The rows of each file, in order. */
  function RowsOf<R>(files: seq<SheetFile<R>>): (r: seq<seq<R>>)
    ensures |r| == |files| && forall i :: 0 <= i < |files| ==> r[i] == files[i].rows
  {
    seq(|files|, i requires 0 <= i < |files| => files[i].rows)
  }

  predicate Readable<R>(f: SheetFile<R>)
  {
    f.isFile && f.readable
  }

  /** With `Skip`, reading is exactly taking the rows of the readable files. */
  lemma {:induction false} SkipReadsReadable<R>(files: seq<SheetFile<R>>)
    ensures ReadAll(files, Skip) == Frames(RowsOf(Filter(files, (f: SheetFile<R>) => Readable(f))))
  {
    var p := (f: SheetFile<R>) => Readable(f);
    if files != [] {
      var init := files[..|files| - 1];
      var f := files[|files| - 1];
      SkipReadsReadable(init);
      FilterSnoc(init, f, p);
      assert init + [f] == files;
      assert RowsOf(Filter(init, p) + [f]) == RowsOf(Filter(init, p)) + [f.rows];
    }
  }

  /** The loaders that skip unreadable files never raise while reading. */
  lemma SkipNeverFails<R>(listing: seq<SheetFile<R>>, suffixes: seq<string>)
    ensures Load(listing, suffixes, Skip).Frames?
  {
    SkipReadsReadable(Candidates(listing, suffixes));
  }

  /** With `Raise`, files that all read give all their rows. */
  lemma {:induction false} RaiseAllReadable<R>(files: seq<SheetFile<R>>)
    requires forall i :: 0 <= i < |files| ==> Readable(files[i])
    ensures ReadAll(files, Raise) == Frames(RowsOf(files))
  {
    if files != [] {
      var init := files[..|files| - 1];
      RaiseAllReadable(init);
      assert RowsOf(files) == RowsOf(init) + [files[|files| - 1].rows];
    }
  }

  lemma ReadAllSnoc<R>(files: seq<SheetFile<R>>, f: SheetFile<R>, policy: OnUnreadable)
    ensures ReadAll(files + [f], policy) == Step(ReadAll(files, policy), f, policy)
  {
    assert (files + [f])[..|files|] == files;
  }

  /** Once the loop has raised, later files change nothing. */
  lemma {:induction false} FailedStays<R>(a: seq<SheetFile<R>>, b: seq<SheetFile<R>>, policy: OnUnreadable)
    requires ReadAll(a, policy).Failed?
    ensures ReadAll(a + b, policy) == ReadAll(a, policy)
  {
    if b == [] {
      assert a + b == a;
    } else {
      FailedStays(a, b[..|b| - 1], policy);
      assert (a + b)[..|a + b| - 1] == a + b[..|b| - 1];
    }
  }

  /** With `Raise`, the exception is the one of the first unreadable file. */
  lemma RaiseFirstUnreadable<R>(files: seq<SheetFile<R>>, k: nat)
    requires k < |files| && !Readable(files[k])
    requires forall i :: 0 <= i < k ==> Readable(files[i])
    ensures ReadAll(files, Raise) == Failed(ReadFailed(files[k].name))
  {
    RaiseAllReadable(files[..k]);
    assert files[..k + 1][..k] == files[..k];
    assert ReadAll(files[..k + 1], Raise) == Failed(ReadFailed(files[k].name));
    FailedStays(files[..k + 1], files[k + 1..], Raise);
    assert files[..k + 1] + files[k + 1..] == files;
  }

  lemma {:induction false} CandidatesConcat<R>(listing: seq<SheetFile<R>>, s1: seq<string>, s2: seq<string>)
    ensures Candidates(listing, s1 + s2) == Candidates(listing, s1) + Candidates(listing, s2)
  {
    if s2 == [] {
      assert s1 + s2 == s1;
    } else {
      var s2' := s2[..|s2| - 1];
      var last := Matching(listing, s2[|s2| - 1]);
      assert (s1 + s2)[..|s1 + s2| - 1] == s1 + s2';
      assert (s1 + s2)[|s1 + s2| - 1] == s2[|s2| - 1];
      calc {
        Candidates(listing, s1 + s2);
      ==
        Candidates(listing, s1 + s2') + last;
      == { CandidatesConcat(listing, s1, s2'); }
        (Candidates(listing, s1) + Candidates(listing, s2')) + last;
      ==
        Candidates(listing, s1) + (Candidates(listing, s2') + last);
      }
    }
  }

  /** Lock files are never read: removing them from the listing changes nothing. */
  lemma {:induction false} LockFilesIgnored<R>(listing: seq<SheetFile<R>>, suffixes: seq<string>, policy: OnUnreadable)
    ensures Load(listing, suffixes, policy)
         == Load(Filter(listing, NotLock<R>()), suffixes, policy)
  {
    CandidatesWithoutLocks(listing, suffixes);
  }

  lemma {:induction false} MatchingWithoutLocks<R>(listing: seq<SheetFile<R>>, suffix: string)
    ensures Matching(listing, suffix) == Matching(Filter(listing, NotLock<R>()), suffix)
  {
    var notLock := NotLock<R>();
    if listing != [] {
      var init := listing[..|listing| - 1];
      var f := listing[|listing| - 1];
      MatchingWithoutLocks(init, suffix);
      FilterSnoc(init, f, notLock);
      assert init + [f] == listing;
      assert notLock(f) == !IsLock(f.name);
      var tail := if Selected(f, suffix) then [f] else [];
      assert Matching(listing, suffix) == Matching(init, suffix) + tail;
      if notLock(f) {
        var kept := Filter(init, notLock) + [f];
        assert kept[..|kept| - 1] == Filter(init, notLock) && kept[|kept| - 1] == f;
        assert Matching(kept, suffix) == Matching(Filter(init, notLock), suffix) + tail;
      } else {
        assert tail == [];
        assert Filter(listing, notLock) == Filter(init, notLock) + [] == Filter(init, notLock);
        assert Matching(init, suffix) + tail == Matching(init, suffix);
      }
    }
  }

  lemma {:induction false} CandidatesWithoutLocks<R>(listing: seq<SheetFile<R>>, suffixes: seq<string>)
    ensures Candidates(listing, suffixes) == Candidates(Filter(listing, NotLock<R>()), suffixes)
  {
    if suffixes != [] {
      CandidatesWithoutLocks(listing, suffixes[..|suffixes| - 1]);
      MatchingWithoutLocks(listing, suffixes[|suffixes| - 1]);
    }
  }

  /** `*.xls` and `*.xlsx` never pick the same file, so reading both patterns reads no file twice. */
  lemma ExtensionsDisjoint(name: string)
    ensures !(EndsWith(name, ".xlsx") && EndsWith(name, ".xls"))
  {
    if EndsWith(name, ".xlsx") {
      assert name[|name| - 5..][4] == 'x';
      assert name[|name| - 3..][2] == name[|name| - 1] == 'x';
    }
  }

  /**
   * The `read_and_concat` loops: for each pattern, for each listed file, skip
   * a lock file, then read the file or, when it cannot be read, skip it or
   * raise as the script does.
   */
  method ReadAndConcat<R>(listing: seq<SheetFile<R>>, suffixes: seq<string>, policy: OnUnreadable) returns (r: Loaded<R>)
    ensures r == Load(listing, suffixes, policy)
  {
    var dfs: seq<seq<R>> := [];
    var i := 0;
    while i < |suffixes|
      invariant 0 <= i <= |suffixes|
      invariant ReadAll(Candidates(listing, suffixes[..i]), policy) == Frames(dfs)
    {
      var res, stop := ReadPattern(listing, suffixes[i], policy, Candidates(listing, suffixes[..i]), dfs);
      if res.Failed? {
        RaisedEarly(listing, suffixes, i, stop, policy);
        return res;
      }
      CandidatesAt(listing, suffixes, i);
      dfs := res.frames;
      i := i + 1;
    }
    assert suffixes[..i] == suffixes;
    r := Frames(dfs);
  }

  /**
   * The inner loop for one pattern, after the files `before` were read into
   * `dfs0`: all frames read so far, or the failure at the file `stop`.
   */
  method ReadPattern<R>(listing: seq<SheetFile<R>>, suffix: string, policy: OnUnreadable, ghost before: seq<SheetFile<R>>, dfs0: seq<seq<R>>)
    returns (r: Loaded<R>, ghost stop: nat)
    requires ReadAll(before, policy) == Frames(dfs0)
    ensures r.Frames? ==> r == ReadAll(before + Matching(listing, suffix), policy)
    ensures r.Failed? ==> stop < |listing| && r == ReadAll(before + Matching(listing[..stop + 1], suffix), policy)
  {
    var dfs := dfs0;
    var j := 0;
    stop := 0;
    assert before + Matching(listing[..0], suffix) == before;
    while j < |listing|
      invariant 0 <= j <= |listing|
      invariant ReadAll(before + Matching(listing[..j], suffix), policy) == Frames(dfs)
    {
      var f := listing[j];
      ReadMatchingStep(before, listing, j, suffix, policy);
      if Globbed(f, suffix) && !IsLock(f.name) {
        if f.isFile && f.readable {
          dfs := dfs + [f.rows];
        } else if policy == Raise {
          return Failed(ReadFailed(f.name)), j;
        }
      }
      j := j + 1;
    }
    assert listing[..j] == listing;
    r := Frames(dfs);
  }

  /** One more listed file: reading the longer candidate list reads that file last, if it matches. */
  lemma ReadMatchingStep<R>(before: seq<SheetFile<R>>, listing: seq<SheetFile<R>>, j: nat, suffix: string, policy: OnUnreadable)
    requires j < |listing|
    ensures ReadAll(before + Matching(listing[..j + 1], suffix), policy)
         == if Selected(listing[j], suffix)
            then Step(ReadAll(before + Matching(listing[..j], suffix), policy), listing[j], policy)
            else ReadAll(before + Matching(listing[..j], suffix), policy)
  {
    var f := listing[j];
    var m := Matching(listing[..j], suffix);
    assert listing[..j + 1][..j] == listing[..j] && listing[..j + 1][j] == f;
    assert Matching(listing[..j + 1], suffix) == m + (if Selected(f, suffix) then [f] else []);
    if Selected(f, suffix) {
      assert before + (m + [f]) == (before + m) + [f];
      ReadAllSnoc(before + m, f, policy);
    } else {
      assert m + [] == m;
    }
  }

  lemma CandidatesAt<R>(listing: seq<SheetFile<R>>, suffixes: seq<string>, i: nat)
    requires i < |suffixes|
    ensures Candidates(listing, suffixes[..i + 1]) == Candidates(listing, suffixes[..i]) + Matching(listing, suffixes[i])
  {
    assert suffixes[..i + 1][..i] == suffixes[..i];
  }

  lemma MatchingSplit<R>(listing: seq<SheetFile<R>>, j: nat, suffix: string)
    requires j < |listing|
    ensures Matching(listing, suffix) == Matching(listing[..j + 1], suffix) + Matching(listing[j + 1..], suffix)
  {
    assert listing == listing[..j + 1] + listing[j + 1..];
    MatchingConcat(listing[..j + 1], listing[j + 1..], suffix);
  }

  lemma CandidatesSplit<R>(listing: seq<SheetFile<R>>, suffixes: seq<string>, i: nat)
    requires i < |suffixes|
    ensures Candidates(listing, suffixes) == Candidates(listing, suffixes[..i + 1]) + Candidates(listing, suffixes[i + 1..])
  {
    assert suffixes == suffixes[..i + 1] + suffixes[i + 1..];
    CandidatesConcat(listing, suffixes[..i + 1], suffixes[i + 1..]);
  }

  lemma Regroup<T>(a: seq<T>, b: seq<T>, c: seq<T>, d: seq<T>)
    ensures (a + (b + c)) + d == (a + b) + (c + d)
  {
  }

  /** When the loops raise at file `j` of pattern `i`, the whole run raises the same exception. */
  lemma RaisedEarly<R>(listing: seq<SheetFile<R>>, suffixes: seq<string>, i: nat, j: nat, policy: OnUnreadable)
    requires i < |suffixes| && j < |listing|
    requires ReadAll(Candidates(listing, suffixes[..i]) + Matching(listing[..j + 1], suffixes[i]), policy).Failed?
    ensures ReadAll(Candidates(listing, suffixes), policy)
         == ReadAll(Candidates(listing, suffixes[..i]) + Matching(listing[..j + 1], suffixes[i]), policy)
  {
    var a := Candidates(listing, suffixes[..i]);
    var b := Matching(listing[..j + 1], suffixes[i]);
    var c := Matching(listing[j + 1..], suffixes[i]);
    var d := Candidates(listing, suffixes[i + 1..]);
    CandidatesAt(listing, suffixes, i);
    MatchingSplit(listing, j, suffixes[i]);
    CandidatesSplit(listing, suffixes, i);
    Regroup(a, b, c, d);
    FailedStays(Candidates(listing, suffixes[..i]) + Matching(listing[..j + 1], suffixes[i]),
                Matching(listing[j + 1..], suffixes[i]) + Candidates(listing, suffixes[i + 1..]), policy);
  }

  /**
   * The walk of `process_old_data`: `rglob('*.xlsx')`, then skip entries that
   * are not files, that lie under a directory part containing 'N', or whose
   * name does not start with the given prefix.
   */
  predicate OldDataSelected<R>(f: SheetFile<R>, startStr: string)
  {
    EndsWith(f.name, ".xlsx") && f.isFile
    && !AnyPartHasN(f.dirs)
    && StartsWith(f.name, startStr)
  }

  /** `any('N' in part for part in parts)`. */
  predicate AnyPartHasN(parts: seq<string>)
  {
    parts != [] && ('N' in parts[0] || AnyPartHasN(parts[1..]))
  }

  /** The files `process_old_data` reads, in walk order. */
  function OldDataFiles<R>(listing: seq<SheetFile<R>>, startStr: string): seq<SheetFile<R>>
  {
    if listing == [] then []
    else
      var f := listing[|listing| - 1];
      OldDataFiles(listing[..|listing| - 1], startStr) + (if OldDataSelected(f, startStr) then [f] else [])
  }

  /** A file is read exactly when it is in the listing and passes the walk's three tests. */
  lemma {:induction false} OldDataFilesMembers<R>(listing: seq<SheetFile<R>>, startStr: string, f: SheetFile<R>)
    ensures f in OldDataFiles(listing, startStr) <==> f in listing && OldDataSelected(f, startStr)
  {
    if listing != [] {
      var init := listing[..|listing| - 1];
      OldDataFilesMembers(init, startStr, f);
      assert listing == init + [listing[|listing| - 1]];
    }
  }

  lemma {:induction false} OldDataFilesConcat<R>(a: seq<SheetFile<R>>, b: seq<SheetFile<R>>, startStr: string)
    ensures OldDataFiles(a + b, startStr) == OldDataFiles(a, startStr) + OldDataFiles(b, startStr)
  {
    if b == [] {
      assert a + b == a;
    } else {
      var b' := b[..|b| - 1];
      assert (a + b)[..|a + b| - 1] == a + b';
      assert (a + b)[|a + b| - 1] == b[|b| - 1];
      OldDataFilesConcat(a, b', startStr);
    }
  }

  lemma ReadOldDataStep<R>(listing: seq<SheetFile<R>>, j: nat, startStr: string)
    requires j < |listing|
    ensures ReadAll(OldDataFiles(listing[..j + 1], startStr), Raise)
         == if OldDataSelected(listing[j], startStr)
            then Step(ReadAll(OldDataFiles(listing[..j], startStr), Raise), listing[j], Raise)
            else ReadAll(OldDataFiles(listing[..j], startStr), Raise)
  {
    var f := listing[j];
    var m := OldDataFiles(listing[..j], startStr);
    assert listing[..j + 1][..j] == listing[..j] && listing[..j + 1][j] == f;
    assert OldDataFiles(listing[..j + 1], startStr) == m + (if OldDataSelected(f, startStr) then [f] else []);
    if OldDataSelected(f, startStr) {
      ReadAllSnoc(m, f, Raise);
    } else {
      assert m + [] == m;
    }
  }

  lemma OldDataRaisedEarly<R>(listing: seq<SheetFile<R>>, j: nat, startStr: string)
    requires j < |listing|
    requires ReadAll(OldDataFiles(listing[..j + 1], startStr), Raise).Failed?
    ensures ReadAll(OldDataFiles(listing, startStr), Raise) == ReadAll(OldDataFiles(listing[..j + 1], startStr), Raise)
  {
    OldDataFilesConcat(listing[..j + 1], listing[j + 1..], startStr);
    assert listing[..j + 1] + listing[j + 1..] == listing;
    FailedStays(OldDataFiles(listing[..j + 1], startStr), OldDataFiles(listing[j + 1..], startStr), Raise);
  }

  /** The file loop of `process_old_data`; a file that cannot be read raises. */
  method LoadOldData<R>(listing: seq<SheetFile<R>>, startStr: string) returns (r: Loaded<R>)
    ensures r == ReadAll(OldDataFiles(listing, startStr), Raise)
  {
    var dfList: seq<seq<R>> := [];
    var j := 0;
    while j < |listing|
      invariant 0 <= j <= |listing|
      invariant ReadAll(OldDataFiles(listing[..j], startStr), Raise) == Frames(dfList)
    {
      var file := listing[j];
      ReadOldDataStep(listing, j, startStr);
      if !EndsWith(file.name, ".xlsx") || !file.isFile {
        j := j + 1;
        continue;
      }
      if AnyPartHasN(file.dirs) {
        j := j + 1;
        continue;
      }
      if !StartsWith(file.name, startStr) {
        j := j + 1;
        continue;
      }
      if !file.readable {
        r := Failed(ReadFailed(file.name));
        OldDataRaisedEarly(listing, j, startStr);
        return;
      }
      dfList := dfList + [file.rows];
      j := j + 1;
    }
    assert listing[..j] == listing;
    r := Frames(dfList);
  }

  /** `pd.concat(dfs)` at the end of a loader: the rows of all frames, or the error. An empty list raises. */
  function Concat<R>(loaded: Loaded<R>): (r: Result<seq<R>>)
    ensures r.Err? <==> loaded.Failed? || loaded.frames == []
    ensures r.Err? && loaded.Frames? ==> r.error == NoObjectsToConcatenate
  {
    match loaded
    case Failed(e) => Err(e)
    case Frames(fs) => if fs == [] then Err(NoObjectsToConcatenate) else Ok(Flatten(fs))
  }

  /** The two header-caption values that mark a row repeating the column titles. */
  predicate IsCaption(code: string)
  {
    code == "证券代码" || code == "没有单位"
  }
}

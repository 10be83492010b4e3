/** routes/recovery.js: plan-scoped quota enforcement for the recovery demo.

    `/scan` walks the candidate files once, left to right, admitting a file while the running
    count stays under `maxFiles` and the running size sum stays within `maxSizeMB`;
    `/recover` checks an explicit selection against the same two limits and accepts or
    rejects it as a whole. Sizes are exact reals (the source's doubles are not modelled). */
module Recovery {
  import opened Base
  import opened Text
  import opened Jwt
  import opened Http
  import Tables

  datatype FileType = Image | Video | Audio | Document | Archive

  /** `FILE_TYPES`: the type filter names and the file types each admits. */
  function FileTypes(key: string): Option<seq<FileType>>
  {
    if key == "todos" then Some([Image, Video, Audio, Document, Archive])
    else if key == "imagens" then Some([Image])
    else if key == "videos" then Some([Video])
    else if key == "audio" then Some([Audio])
    else if key == "docs" then Some([Document])
    else None
  }

  /** One entry of `PLAN_LIMITS` (`maxScans` and `maxDays` are carried but never checked). */
  datatype Limits = Limits(maxFiles: nat, maxSizeMB: real, maxScans: nat, maxDays: nat)

  const FreeLimits: Limits := Limits(5, 300.0, 1, 10)
  const ProLimits: Limits := Limits(50, 5120.0, 50, 30)

  /** `PLAN_LIMITS[plan]`: only `free` and `pro` have limits. */
  function PlanLimits(plan: string): (r: Option<Limits>)
    ensures r.Some? <==> plan == "free" || plan == "pro"
    ensures r.Some? ==> r.value.maxSizeMB >= 0.0
  {
    if plan == "free" then Some(FreeLimits)
    else if plan == "pro" then Some(ProLimits)
    else None
  }

  datatype FileEntry = FileEntry(id: nat, name: string, sizeInMB: real, fileType: FileType)

  /** `ALL_FILES`: the demo's fixed candidate list. */
  const AllFiles: seq<FileEntry> := [
    FileEntry(1, "Foto_Férias_2024.jpg", 4.2, Image),
    FileEntry(2, "Vídeo_Aniversário.mp4", 512.0, Video),
    FileEntry(3, "Documento_Importante.pdf", 2.1, Document),
    FileEntry(4, "Planilha_2024.xlsx", 1.5, Document),
    FileEntry(5, "Música_Favorita.mp3", 8.5, Audio),
    FileEntry(6, "Apresentação.pptx", 15.3, Document),
    FileEntry(7, "Código_Projeto.zip", 52.1, Archive),
    FileEntry(8, "Backup_Database.sql", 128.5, Document),
    FileEntry(9, "Vídeo_Completo.mkv", 256.0, Video),
    FileEntry(10, "Arquivo_Grande.iso", 450.0, Archive)
  ]

  /** `extractUserPlanFromToken`: `free` unless the header is a Bearer header whose token
      verifies; then the lower-cased `plan` claim, or `free` when the claim is absent. */
  function ExtractUserPlan(header: Option<string>, env: Env, codec: Codec): (plan: string)
    ensures BearerToken(header).None? ==> plan == "free"
    ensures BearerToken(header).Some? ==>
              codec.verify(BearerToken(header).value, Secret(env, RouteDefaultSecret)).None? ==> plan == "free"
    ensures forall i :: 0 <= i < |plan| ==> !IsUpper(plan[i])
  {
    match BearerToken(header)
    case None => "free"
    case Some(token) =>
      match codec.verify(token, Secret(env, RouteDefaultSecret))
      case None => "free"
      case Some(claims) => Lower(OrElse(claims.plan, "free"))
  }

  /** A token the routes' secret signed reads back as its own plan claim, lower-cased,
      or `free` without one. */
  lemma ExtractSignedPlan(env: Env, codec: Codec, claims: Claims)
    requires RoundTrips(codec)
    ensures ExtractUserPlan(Some(BearerHeader(codec.sign(claims, Secret(env, RouteDefaultSecret)))), env, codec)
            == Lower(OrElse(claims.plan, "free"))
  {
    BearerHeaderRoundTrip(codec.sign(claims, Secret(env, RouteDefaultSecret)));
  }

  /** A token without a `plan` claim (as the Google and test logins issue) gets the free limits,
      whatever the holder's subscription. */
  lemma PlanlessTokenIsFree(header: Option<string>, env: Env, codec: Codec, claims: Claims)
    requires RoundTrips(codec) && claims.plan.None?
    requires header == Some(BearerHeader(codec.sign(claims, Secret(env, RouteDefaultSecret))))
    ensures ExtractUserPlan(header, env, codec) == "free"
    ensures PlanLimits(ExtractUserPlan(header, env, codec)) == Some(FreeLimits)
  {
    ExtractSignedPlan(env, codec, claims);
  }

  /** `fileType || 'todos'`. */
  function SelectedFileType(fileType: Option<string>): string
  {
    OrElse(fileType, "todos")
  }

  /** `FILE_TYPES[selected] || FILE_TYPES.todos`: an unknown filter name selects every type. */
  function AllowedTypes(selected: string): (r: seq<FileType>)
    ensures FileTypes(selected).None? ==> r == FileTypes("todos").value
    ensures FileTypes(selected).Some? ==> r == FileTypes(selected).value
  {
    match FileTypes(selected)
    case Some(types) => types
    case None => [Image, Video, Audio, Document, Archive]
  }

  /** `files.filter(file => allowed.includes(file.type))`. */
  function OfTypes(files: seq<FileEntry>, allowed: seq<FileType>): (r: seq<FileEntry>)
    ensures forall f :: f in r <==> f in files && f.fileType in allowed
  {
    Tables.Filter((f: FileEntry) => f.fileType in allowed, files)
  }

  /** The files a scan considers: the fixed list narrowed to the selected types, in order. */
  function Candidates(fileType: Option<string>): seq<FileEntry>
  {
    OfTypes(AllFiles, AllowedTypes(SelectedFileType(fileType)))
  }

  /** Without a filter, or with an unknown one, every file is a candidate. */
  lemma UnfilteredScanSeesAll(fileType: Option<string>)
    requires FileTypes(SelectedFileType(fileType)).None? || SelectedFileType(fileType) == "todos"
    ensures Candidates(fileType) == AllFiles
  {
    var allowed := AllowedTypes(SelectedFileType(fileType));
    assert allowed == [Image, Video, Audio, Document, Archive];
    forall f: FileEntry ensures f.fileType in allowed {
      match f.fileType
      case Image => assert allowed[0] == Image;
      case Video => assert allowed[1] == Video;
      case Audio => assert allowed[2] == Audio;
      case Document => assert allowed[3] == Document;
      case Archive => assert allowed[4] == Archive;
    }
    Tables.FilterAll((f: FileEntry) => f.fileType in allowed, AllFiles);
  }

  datatype Reason = FileLimit | SizeLimit

  /** One element of `scanResults`: the file, whether it can be recovered, and why not. */
  datatype ScanEntry = ScanEntry(file: FileEntry, canRecover: bool, blockedReason: Option<Reason>)

  /** The decision for one file, given the count and size already admitted: admitted iff the
      count is under the file limit and the size fits; the file limit is reported first. */
  function Judge(f: FileEntry, count: nat, total: real, lim: Limits): (e: ScanEntry)
    ensures e.file == f
    ensures e.canRecover <==> count < lim.maxFiles && total + f.sizeInMB <= lim.maxSizeMB
    ensures e.blockedReason.None? <==> e.canRecover
    ensures e.blockedReason == Some(FileLimit) <==> count >= lim.maxFiles
  {
    var overFiles := count >= lim.maxFiles;
    var overSize := total + f.sizeInMB > lim.maxSizeMB;
    ScanEntry(f, !overFiles && !overSize,
      if overFiles then Some(FileLimit) else if overSize then Some(SizeLimit) else None)
  }

  /** The greedy pass from a given count and size: a rejected file leaves both unchanged. */
  function AdmitFrom(files: seq<FileEntry>, count: nat, total: real, lim: Limits): (r: seq<ScanEntry>)
    ensures |r| == |files|
  {
    if files == [] then []
    else
      var e := Judge(files[0], count, total, lim);
      [e] + AdmitFrom(files[1..], CountAfter(e, count), SizeAfter(e, total), lim)
  }

  /** The admitted count after judging `e`. */
  function CountAfter(e: ScanEntry, count: nat): nat
  {
    if e.canRecover then count + 1 else count
  }

  /** The admitted size after judging `e`. */
  function SizeAfter(e: ScanEntry, total: real): real
  {
    if e.canRecover then total + e.file.sizeInMB else total
  }

  /** The greedy pass over a whole list. */
  function Admit(files: seq<FileEntry>, lim: Limits): seq<ScanEntry>
  {
    AdmitFrom(files, 0, 0.0, lim)
  }

  predicate Admitted(e: ScanEntry)
  {
    e.canRecover
  }

  /** The number of admitted entries. */
  function AdmittedCount(entries: seq<ScanEntry>): nat
  {
    if entries == [] then 0
    else
      var last := entries[|entries| - 1];
      AdmittedCount(entries[..|entries| - 1]) + (if last.canRecover then 1 else 0)
  }

  /** The size sum of the admitted entries. */
  function AdmittedSize(entries: seq<ScanEntry>): real
  {
    if entries == [] then 0.0
    else
      var last := entries[|entries| - 1];
      AdmittedSize(entries[..|entries| - 1]) + (if last.canRecover then last.file.sizeInMB else 0.0)
  }

  /** The count is `scanResults.filter(f => f.canRecover).length`. */
  lemma {:induction false} AdmittedCountIsFilter(entries: seq<ScanEntry>)
    ensures AdmittedCount(entries) == |Tables.Filter(Admitted, entries)|
    decreases |entries|
  {
    if entries != [] {
      var init := entries[..|entries| - 1];
      var last := entries[|entries| - 1];
      AdmittedCountIsFilter(init);
      assert entries == init + [last];
      Tables.FilterAppend(Admitted, init, [last]);
      assert Tables.Filter(Admitted, [last]) == (if last.canRecover then [last] else []) by {
        assert [last][1..] == [];
      }
    }
  }

  lemma AdmittedCountSnoc(entries: seq<ScanEntry>, e: ScanEntry)
    ensures AdmittedCount(entries + [e]) == AdmittedCount(entries) + (if e.canRecover then 1 else 0)
  {
    assert (entries + [e])[..|entries|] == entries;
  }

  lemma AdmittedSizeSnoc(entries: seq<ScanEntry>, e: ScanEntry)
    ensures AdmittedSize(entries + [e]) == AdmittedSize(entries) + (if e.canRecover then e.file.sizeInMB else 0.0)
  {
    assert (entries + [e])[..|entries|] == entries;
  }

  lemma AppendAssoc<T>(a: seq<T>, b: seq<T>, c: seq<T>)
    ensures (a + b) + c == a + (b + c)
  {
  }

  lemma AdmitFromCons(files: seq<FileEntry>, count: nat, total: real, lim: Limits)
    requires files != []
    ensures var e := Judge(files[0], count, total, lim);
            AdmitFrom(files, count, total, lim) == [e] + AdmitFrom(files[1..], CountAfter(e, count), SizeAfter(e, total), lim)
  {
  }

  lemma {:induction false} AdmittedCountCons(e: ScanEntry, entries: seq<ScanEntry>)
    ensures AdmittedCount([e] + entries) == AdmittedCount(entries) + (if e.canRecover then 1 else 0)
    decreases |entries|
  {
    if entries != [] {
      var s := [e] + entries;
      assert s[..|s| - 1] == [e] + entries[..|entries| - 1];
      AdmittedCountCons(e, entries[..|entries| - 1]);
    } else {
      assert ([e] + entries)[..0] == [];
    }
  }

  /** One turn of the `/scan` loop keeps the loop's reading of the greedy pass. */
  lemma ScanStep(results: seq<ScanEntry>, files: seq<FileEntry>, i: nat, count: nat, total: real, lim: Limits)
    requires i < |files|
    requires results + AdmitFrom(files[i..], count, total, lim) == Admit(files, lim)
    requires count == AdmittedCount(results) && total == AdmittedSize(results)
    requires count <= lim.maxFiles && (total == 0.0 || total <= lim.maxSizeMB)
    ensures var e := Judge(files[i], count, total, lim);
            && (results + [e]) + AdmitFrom(files[i + 1..], CountAfter(e, count), SizeAfter(e, total), lim) == Admit(files, lim)
            && CountAfter(e, count) == AdmittedCount(results + [e])
            && SizeAfter(e, total) == AdmittedSize(results + [e])
            && CountAfter(e, count) <= lim.maxFiles
            && (SizeAfter(e, total) == 0.0 || SizeAfter(e, total) <= lim.maxSizeMB)
  {
    var e := Judge(files[i], count, total, lim);
    var tail := AdmitFrom(files[i + 1..], CountAfter(e, count), SizeAfter(e, total), lim);
    assert AdmitFrom(files[i..], count, total, lim) == [e] + tail by {
      AdmitFromCons(files[i..], count, total, lim);
      assert files[i..][1..] == files[i + 1..];
    }
    AdmittedCountSnoc(results, e);
    AdmittedSizeSnoc(results, e);
    AppendAssoc(results, [e], tail);
  }

  /** The `/scan` loop (routes/recovery.js:112-132): one entry per file, in order, equal to the
      greedy pass; the returned counters are the admitted count and size, and never exceed
      the plan's limits. */
  method ScanFiles(files: seq<FileEntry>, lim: Limits) returns (results: seq<ScanEntry>, count: nat, total: real)
    ensures results == Admit(files, lim)
    ensures count == AdmittedCount(results) && total == AdmittedSize(results)
    ensures count <= lim.maxFiles
    ensures lim.maxSizeMB >= 0.0 ==> total <= lim.maxSizeMB
  {
    results, count, total := [], 0, 0.0;
    assert AdmittedCount([]) == 0 && AdmittedSize([]) == 0.0;
    assert [] + AdmitFrom(files[0..], 0, 0.0, lim) == Admit(files, lim) by {
      assert files[0..] == files;
    }
    var i := 0;
    while i < |files|
      invariant 0 <= i <= |files|
      invariant results + AdmitFrom(files[i..], count, total, lim) == Admit(files, lim)
      invariant count == AdmittedCount(results) && total == AdmittedSize(results)
      invariant count <= lim.maxFiles
      invariant total == 0.0 || total <= lim.maxSizeMB
    {
      ghost var count0, total0 := count, total;
      var file := files[i];
      var wouldExceedFileLimit := count >= lim.maxFiles;
      var wouldExceedSizeLimit := total + file.sizeInMB > lim.maxSizeMB;
      var canRecover := !wouldExceedFileLimit && !wouldExceedSizeLimit;
      var entry := ScanEntry(file, canRecover,
        if wouldExceedFileLimit then Some(FileLimit) else if wouldExceedSizeLimit then Some(SizeLimit) else None);
      assert entry == Judge(file, count, total, lim);
      ScanStep(results, files, i, count, total, lim);
      results := results + [entry];
      if canRecover {
        total := total + file.sizeInMB;
        count := count + 1;
      }
      assert count == CountAfter(entry, count0) && total == SizeAfter(entry, total0);
      i := i + 1;
    }
    assert files[i..] == [];
  }

  /** The independent reading of the greedy pass: entry `i` is admitted iff fewer than
      `maxFiles` entries before it were admitted and its size fits in what they left;
      its reason is the file limit when the count is exhausted, else the size limit. */
  lemma {:induction false} AdmitFromAt(files: seq<FileEntry>, count: nat, total: real, lim: Limits, i: nat)
    requires i < |files|
    ensures var r := AdmitFrom(files, count, total, lim);
            r[i] == Judge(files[i], count + AdmittedCount(r[..i]), total + AdmittedSize(r[..i]), lim)
  {
    var e := Judge(files[0], count, total, lim);
    if i == 0 {
      AdmitFromCons(files, count, total, lim);
      assert AdmitFrom(files, count, total, lim)[..0] == [];
      assert AdmittedCount([]) == 0 && AdmittedSize([]) == 0.0;
    } else {
      AdmitFromAt(files[1..], CountAfter(e, count), SizeAfter(e, total), lim, i - 1);
      AdmitFromCons(files, count, total, lim);
      assert files == [files[0]] + files[1..];
      AdmitAtStep(e, AdmitFrom(files[1..], CountAfter(e, count), SizeAfter(e, total), lim), files[0], files[1..],
                  count, total, lim, i);
    }
  }

  /** The inductive step of `AdmitFromAt`: the claim for the tail gives the claim for the list. */
  lemma AdmitAtStep(e: ScanEntry, rest: seq<ScanEntry>, f: FileEntry, fs: seq<FileEntry>,
                    count: nat, total: real, lim: Limits, i: nat)
    requires 0 < i && i - 1 < |rest| && i - 1 < |fs|
    requires e == Judge(f, count, total, lim)
    requires rest[i - 1] == Judge(fs[i - 1], CountAfter(e, count) + AdmittedCount(rest[..i - 1]),
                                  SizeAfter(e, total) + AdmittedSize(rest[..i - 1]), lim)
    ensures var r := [e] + rest;
            r[i] == Judge(([f] + fs)[i], count + AdmittedCount(r[..i]), total + AdmittedSize(r[..i]), lim)
  {
    var r := [e] + rest;
    var k := rest[..i - 1];
    var before := count + AdmittedCount(r[..i]);
    var used := total + AdmittedSize(r[..i]);
    assert before == CountAfter(e, count) + AdmittedCount(k) by {
      assert r[..i] == [e] + k;
      AdmittedCountCons(e, k);
    }
    assert used == SizeAfter(e, total) + AdmittedSize(k) by {
      assert r[..i] == [e] + k;
      AdmittedSizeCons(e, k);
    }
    assert r[i] == rest[i - 1] && ([f] + fs)[i] == fs[i - 1];
  }

  lemma {:induction false} AdmittedSizeCons(e: ScanEntry, entries: seq<ScanEntry>)
    ensures AdmittedSize([e] + entries) == (if e.canRecover then e.file.sizeInMB else 0.0) + AdmittedSize(entries)
    decreases |entries|
  {
    if entries != [] {
      var s := [e] + entries;
      assert s[..|s| - 1] == [e] + entries[..|entries| - 1];
      AdmittedSizeCons(e, entries[..|entries| - 1]);
    } else {
      assert ([e] + entries)[..0] == [];
    }
  }

  lemma AdmitAt(files: seq<FileEntry>, lim: Limits, i: nat)
    requires i < |files|
    ensures var r := Admit(files, lim);
            r[i] == Judge(files[i], AdmittedCount(r[..i]), AdmittedSize(r[..i]), lim)
  {
    AdmitFromAt(files, 0, 0.0, lim, i);
  }

  /** Whatever the list, the greedy pass never admits more files or more size than the plan
      allows. */
  lemma {:induction false} AdmitFromBounded(files: seq<FileEntry>, count: nat, total: real, lim: Limits)
    requires count <= lim.maxFiles && total <= lim.maxSizeMB
    ensures var r := AdmitFrom(files, count, total, lim);
            count + AdmittedCount(r) <= lim.maxFiles && total + AdmittedSize(r) <= lim.maxSizeMB
  {
    if files != [] {
      var e := Judge(files[0], count, total, lim);
      var c' := CountAfter(e, count);
      var t' := SizeAfter(e, total);
      var rest := AdmitFrom(files[1..], c', t', lim);
      AdmitFromBounded(files[1..], c', t', lim);
      AdmittedCountCons(e, rest);
      AdmittedSizeCons(e, rest);
    }
  }

  /** `f.sizeInMB || 0`: a missing size counts as zero. */
  function SizeOrZero(size: Option<real>): real
  {
    if size.Some? then size.value else 0.0
  }

  /** `files.reduce((sum, f) => sum + (f.sizeInMB || 0), 0)`. */
  function TotalSize(sizes: seq<Option<real>>): real
  {
    if sizes == [] then 0.0 else SizeOrZero(sizes[0]) + TotalSize(sizes[1..])
  }

  /** The sizes a client would submit for these files. */
  function SizesOf(files: seq<FileEntry>): (r: seq<Option<real>>)
    ensures |r| == |files|
    ensures forall i :: 0 <= i < |files| ==> r[i] == Some(files[i].sizeInMB)
  {
    seq(|files|, i requires 0 <= i < |files| => Some(files[i].sizeInMB))
  }

  predicate NonNegativeSizes(files: seq<FileEntry>)
  {
    forall i :: 0 <= i < |files| ==> files[i].sizeInMB >= 0.0
  }

  lemma {:induction false} TotalSizeNonNegative(files: seq<FileEntry>)
    requires NonNegativeSizes(files)
    ensures TotalSize(SizesOf(files)) >= 0.0
  {
    if files != [] {
      assert SizesOf(files)[1..] == SizesOf(files[1..]);
      TotalSizeNonNegative(files[1..]);
    }
  }

  /** Both checks of `/recover` pass: not more than `maxFiles` files and not more than
      `maxSizeMB` in all. */
  predicate WithinLimits(count: nat, total: real, lim: Limits)
  {
    !(count > lim.maxFiles) && !(total > lim.maxSizeMB)
  }

  /** The greedy pass from a given count and size admits every file iff the files, added to
      what was already admitted, stay within both limits (sizes not negative). */
  lemma {:induction false} AdmitsAllFrom(files: seq<FileEntry>, count: nat, total: real, lim: Limits)
    requires NonNegativeSizes(files)
    requires count <= lim.maxFiles && total <= lim.maxSizeMB
    ensures (forall e :: e in AdmitFrom(files, count, total, lim) ==> e.canRecover)
            <==> WithinLimits(count + |files|, total + TotalSize(SizesOf(files)), lim)
  {
    if files != [] {
      var e := Judge(files[0], count, total, lim);
      var rest := files[1..];
      assert SizesOf(files)[1..] == SizesOf(rest);
      assert NonNegativeSizes(rest);
      TotalSizeNonNegative(rest);
      if e.canRecover {
        AdmitsAllFrom(rest, CountAfter(e, count), SizeAfter(e, total), lim);
      } else {
        assert e in AdmitFrom(files, count, total, lim);
      }
    }
  }

  /** The two checkpoints agree: `/recover` accepts the sizes of a list (of non-negative
      sizes) iff the `/scan` greedy pass admits every file of that list. */
  lemma RecoverAgreesWithScan(files: seq<FileEntry>, lim: Limits)
    requires NonNegativeSizes(files) && lim.maxSizeMB >= 0.0
    ensures (forall e :: e in Admit(files, lim) ==> e.canRecover)
            <==> WithinLimits(|files|, TotalSize(SizesOf(files)), lim)
  {
    AdmitsAllFrom(files, 0, 0.0, lim);
  }

  /** The built-in list under the free plan: the 512 MB video is blocked for size, the file
      limit stops the list after the sixth file, and exactly five files are recoverable. */
  lemma FreeScanOfAllFiles()
    ensures var r := Admit(AllFiles, FreeLimits);
            && r[0].canRecover
            && r[1].blockedReason == Some(SizeLimit)
            && (forall i :: 6 <= i < 10 ==> r[i].blockedReason == Some(FileLimit))
            && AdmittedCount(r) == 5
  {
    var f := AllFiles;
    FreeScanMiddle();
    var r6 := AdmitFrom(f[3..], 2, 6.3, FreeLimits);
    var r7 := AdmitFrom(f[2..], 1, 4.2, FreeLimits);
    var r8 := AdmitFrom(f[1..], 1, 4.2, FreeLimits);
    var r9 := AdmitFrom(f, 0, 0.0, FreeLimits);
    assert f[2..][1..] == f[3..];
    assert r7 == [Judge(f[2], 1, 4.2, FreeLimits)] + r6;
    assert f[1..][1..] == f[2..];
    assert r8 == [Judge(f[1], 1, 4.2, FreeLimits)] + r7;
    assert r9 == [Judge(f[0], 0, 0.0, FreeLimits)] + r8;
    AdmittedCountCons(r9[0], r8);
    AdmittedCountCons(r8[0], r7);
    AdmittedCountCons(r7[0], r6);
  }

  /** From the fourth built-in file on, after two admitted files of 6.3 MB: three more are
      admitted and the file limit blocks the rest. */
  lemma FreeScanMiddle()
    ensures var r := AdmitFrom(AllFiles[3..], 2, 6.3, FreeLimits);
            && |r| == 7
            && (forall i :: 3 <= i < 7 ==> r[i].blockedReason == Some(FileLimit))
            && AdmittedCount(r) == 3
  {
    var f := AllFiles;
    FreeScanTail();
    var r3 := AdmitFrom(f[6..], 5, 31.6, FreeLimits);
    var r4 := AdmitFrom(f[5..], 4, 16.3, FreeLimits);
    var r5 := AdmitFrom(f[4..], 3, 7.8, FreeLimits);
    var r6 := AdmitFrom(f[3..], 2, 6.3, FreeLimits);
    assert f[5..][1..] == f[6..];
    assert r4 == [Judge(f[5], 4, 16.3, FreeLimits)] + r3;
    assert f[4..][1..] == f[5..];
    assert r5 == [Judge(f[4], 3, 7.8, FreeLimits)] + r4;
    assert f[3..][1..] == f[4..];
    assert r6 == [Judge(f[3], 2, 6.3, FreeLimits)] + r5;
    AdmittedCountCons(r6[0], r5);
    AdmittedCountCons(r5[0], r4);
    AdmittedCountCons(r4[0], r3);
  }

  /** The last four built-in files come after five admitted ones: the file limit blocks each. */
  lemma FreeScanTail()
    ensures var r := AdmitFrom(AllFiles[6..], 5, 31.6, FreeLimits);
            && |r| == 4
            && (forall i :: 0 <= i < 4 ==> r[i].blockedReason == Some(FileLimit))
            && AdmittedCount(r) == 0
  {
    var f := AllFiles;
    var r0 := AdmitFrom(f[9..], 5, 31.6, FreeLimits);
    var r1 := AdmitFrom(f[8..], 5, 31.6, FreeLimits);
    var r2 := AdmitFrom(f[7..], 5, 31.6, FreeLimits);
    var r3 := AdmitFrom(f[6..], 5, 31.6, FreeLimits);
    assert f[9..][1..] == [];
    assert r0 == [Judge(f[9], 5, 31.6, FreeLimits)];
    assert f[8..][1..] == f[9..];
    assert r1 == [Judge(f[8], 5, 31.6, FreeLimits)] + r0;
    assert f[7..][1..] == f[8..];
    assert r2 == [Judge(f[7], 5, 31.6, FreeLimits)] + r1;
    assert f[6..][1..] == f[7..];
    assert r3 == [Judge(f[6], 5, 31.6, FreeLimits)] + r2;
    AdmittedCountCons(r3[0], r2);
    AdmittedCountCons(r2[0], r1);
    AdmittedCountCons(r1[0], r0);
    AdmittedCountCons(r0[0], []);
  }

  /** A rejected file does not use up the budget: with sizes 4.2, 512 and 2.1 under the free
      plan the first and third are admitted and the second is blocked for size. */
  lemma LaterSmallerFileAdmitted(a: FileEntry, b: FileEntry, c: FileEntry)
    requires a.sizeInMB == 4.2 && b.sizeInMB == 512.0 && c.sizeInMB == 2.1
    ensures var r := Admit([a, b, c], FreeLimits);
            && r[0].canRecover
            && !r[1].canRecover && r[1].blockedReason == Some(SizeLimit)
            && r[2].canRecover
            && AdmittedCount(r) == 2
  {
    var f := [a, b, c];
    assert f[1..] == [b, c] && f[1..][1..] == [c] && f[1..][1..][1..] == [];
    var r2 := AdmitFrom([c], 1, 4.2, FreeLimits);
    assert r2 == [Judge(c, 1, 4.2, FreeLimits)];
    var r1 := AdmitFrom([b, c], 1, 4.2, FreeLimits);
    assert r1 == [Judge(b, 1, 4.2, FreeLimits)] + r2;
    var r0 := Admit(f, FreeLimits);
    assert r0 == [Judge(a, 0, 0.0, FreeLimits)] + r1;
    AdmittedCountCons(r0[0], r1);
    AdmittedCountCons(r1[0], r2);
    AdmittedCountCons(r2[0], []);
  }

  /** The body of a `/scan` reply. */
  datatype ScanReport = ScanReport(
    deviceId: string, fileType: string, plan: string,
    filesFound: nat, filesRecoverable: nat, results: seq<ScanEntry>,
    maxFiles: nat, maxSizeMB: real)

  /** `POST /scan`: 400 without a device id, 500 when the plan has no limits, otherwise the
      greedy pass over the candidates of the selected type. */
  method ScanRoute(header: Option<string>, env: Env, codec: Codec, deviceId: Option<string>, fileType: Option<string>)
    returns (res: Response<ScanReport>)
    ensures !Present(deviceId) ==> res == Err(400, DeviceRequired)
    ensures Present(deviceId) && PlanLimits(ExtractUserPlan(header, env, codec)).None? ==> res == Err(500, Internal)
    ensures res.Ok? <==> Present(deviceId) && PlanLimits(ExtractUserPlan(header, env, codec)).Some?
    ensures res.Ok? ==>
              var plan := ExtractUserPlan(header, env, codec);
              var lim := PlanLimits(plan).value;
              && res.body.deviceId == deviceId.value
              && res.body.plan == plan
              && res.body.fileType == SelectedFileType(fileType)
              && res.body.results == Admit(Candidates(fileType), lim)
              && res.body.filesFound == |Candidates(fileType)|
              && res.body.filesRecoverable == AdmittedCount(res.body.results)
              && res.body.filesRecoverable <= lim.maxFiles
              && (res.body.maxFiles, res.body.maxSizeMB) == (lim.maxFiles, lim.maxSizeMB)
  {
    var plan := ExtractUserPlan(header, env, codec);
    if !Present(deviceId) {
      return Err(400, DeviceRequired);
    }
    var selected := SelectedFileType(fileType);
    var allowed := AllowedTypes(selected);
    var limits := PlanLimits(plan);
    var filtered := OfTypes(AllFiles, allowed);
    if limits.None? {
      return Err(500, Internal);
    }
    var results, count, total := ScanFiles(filtered, limits.value);
    var recoverable := |Tables.Filter(Admitted, results)|;
    AdmittedCountIsFilter(results);
    res := Ok(ScanReport(deviceId.value, selected, plan, |results|, recoverable, results,
                         limits.value.maxFiles, limits.value.maxSizeMB));
  }

  /** The `files` field of a `/recover` body. */
  datatype FilesField = Absent | NotAnArray | Items(sizes: seq<Option<real>>)

  /** The body of a `/recover` reply. */
  datatype Receipt = Receipt(filesCount: nat, totalSizeMB: real, destination: string)

  /** `POST /recover`: rejects the whole selection, checking in order for no files, no
      destination, a plan without limits (500), too many files, too much size; otherwise
      accepts every file. Exactly `maxFiles` files or exactly `maxSizeMB` is accepted. */
  function RecoverRoute(header: Option<string>, env: Env, codec: Codec, files: FilesField, destination: Option<string>)
    : (r: Response<Receipt>)
    ensures !(files.Items? && files.sizes != []) ==> r == Err(400, NoFilesSelected)
    ensures files.Items? && files.sizes != [] && !Present(destination) ==> r == Err(400, NoDestination)
    ensures files.Items? && files.sizes != [] && Present(destination) ==>
              var lim := PlanLimits(ExtractUserPlan(header, env, codec));
              && (lim.None? ==> r == Err(500, Internal))
              && (lim.Some? && |files.sizes| > lim.value.maxFiles ==> r == Err(400, TooManyFiles))
              && (lim.Some? && |files.sizes| <= lim.value.maxFiles && TotalSize(files.sizes) > lim.value.maxSizeMB ==>
                    r == Err(400, TotalSizeExceeded))
              && (lim.Some? && WithinLimits(|files.sizes|, TotalSize(files.sizes), lim.value) ==>
                    r == Ok(Receipt(|files.sizes|, TotalSize(files.sizes), destination.value)))
  {
    var plan := ExtractUserPlan(header, env, codec);
    if !(files.Items? && files.sizes != []) then Err(400, NoFilesSelected)
    else if !Present(destination) then Err(400, NoDestination)
    else
      match PlanLimits(plan)
      case None => Err(500, Internal)
      case Some(limits) =>
        if |files.sizes| > limits.maxFiles then Err(400, TooManyFiles)
        else
          var totalSize := TotalSize(files.sizes);
          if totalSize > limits.maxSizeMB then Err(400, TotalSizeExceeded)
          else Ok(Receipt(|files.sizes|, totalSize, destination.value))
  }

  /** A signed `ENTERPRISE` plan has no limits: a well-formed `/recover` request fails with 500. */
  lemma EnterpriseRecoverFails(env: Env, codec: Codec, claims: Claims, sizes: seq<Option<real>>, destination: string)
    requires RoundTrips(codec) && claims.plan == Some("ENTERPRISE")
    requires sizes != [] && destination != ""
    ensures RecoverRoute(Some(BearerHeader(codec.sign(claims, Secret(env, RouteDefaultSecret)))), env, codec,
                         Items(sizes), Some(destination)) == Err(500, Internal)
  {
    ExtractSignedPlan(env, codec, claims);
    var plan := Lower("ENTERPRISE");
    assert |plan| == 10;
  }
}

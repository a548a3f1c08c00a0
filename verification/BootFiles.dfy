/** The boot loader files of BootEncryption.cpp on a GPT disk: backing up the Windows
    loader, installing the VeraCrypt loader and restoring. Reading always works; writing,
    renaming and deleting fail at will where `faulty` says so. */
module BootFiles {
  import opened BootOrder

  /** The files that the program names. */
  datatype Path =
    | MsLoader        // \EFI\Microsoft\Boot\bootmgfw.efi
    | MsBackup        // \EFI\Microsoft\Boot\bootmgfw_ms.vc
    | EfiLoader       // \EFI\Boot\bootx64.efi
    | EfiBackup       // \EFI\Boot\original_bootx64.vc_backup
    | OldEfiBackup    // \EFI\Boot\original_bootx64_vc_backup.efi
    | Own(file: OwnFile)
    | Snapshot(image: OwnFile) // the same name with .vc_backup
    | SystemBackup    // outside the boot partition
    | Other(name: string)

  /** The files that belong to VeraCrypt alone, in \EFI\VeraCrypt and in the root. */
  datatype OwnFile =
    | DcsBoot | DcsInt | DcsCfg | LegacySpeaker | DcsInfo | DcsBml | PlatformInfo | DcsProp | DcsBootConfig
    | RootDcsBoot | RootDcsInt | RootDcsCfg | RootLegacySpeaker | RootDcsBootConfig | RootDcsProp

  type Files = map<Path, string>

  const MAX_SIZE: nat := 16777216
  const SMALL: nat := 32768
  const MS_STRING: string := "bootmgfw.pdb"
  const APP_NAME: string := "VeraCrypt"

  /** As two-byte characters. */
  function Wide(s: string): string { if s == "" then "" else [s[0], '\0'] + Wide(s[1..]) }

  ghost predicate HasPattern(b: string, p: string) {
    exists i :: At(b, p, i)
  }

  predicate At(b: string, p: string, i: int) { 0 <= i <= |b| - |p| && b[i..i + |p|] == p }

  /** BufferHasPattern (Dlgcode.c, lines 14941-14958) */
  method BufferHasPattern(b: string, p: string) returns (found: bool)
    ensures found == HasPattern(b, p)
    ensures found <==> exists before, after :: b == before + p + after
  {
    PatternIs(b, p);
    found := false;
    if |p| <= |b| {
      var i := 0;
      while i <= |b| - |p|
        invariant 0 <= i <= |b| - |p| + 1
        invariant forall k :: 0 <= k < i ==> !At(b, p, k)
      {
        if b[i..i + |p|] == p {
          assert At(b, p, i);
          return true;
        }
        i := i + 1;
      }
    }
  }

  lemma PatternIs(b: string, p: string)
    ensures HasPattern(b, p) <==> exists before, after :: b == before + p + after
  {
    if HasPattern(b, p) {
      var i :| At(b, p, i);
      assert b == b[..i] + p + b[i + |p|..];
    }
    if before, after :| b == before + p + after { assert At(b, p, |before|); }
  }

  /** Each character is followed by a zero. */
  lemma {:induction false} WideAt(s: string, i: nat)
    requires i < |s|
    ensures |Wide(s)| == 2 * |s| && Wide(s)[2 * i] == s[i] && Wide(s)[2 * i + 1] == '\0'
  {
    if |s| == 1 {
      assert s[1..] == "";
    } else {
      WideAt(s[1..], if i > 0 then i - 1 else 0);
      assert Wide(s)[2..] == Wide(s[1..]);
    }
  }

  ghost predicate Ms(c: string) { HasPattern(c, MS_STRING) }
  ghost predicate VeraCrypt(c: string) { HasPattern(c, Wide(APP_NAME)) || HasPattern(c, APP_NAME) }
  ghost predicate Windows(c: string) { Ms(c) && !VeraCrypt(c) }


  datatype Outcome = Success | Failure

  // ----- operations on files -----

  ghost predicate CanRename(files: Files, src: Path, dst: Path, force: bool) {
    src in files && (dst !in files || force || files[src] == files[dst])
  }

  function Renamed(files: Files, src: Path, dst: Path): Files
    requires src in files
  {
    if src == dst then files - {src} else (files - {src})[dst := files[src]]
  }

  ghost predicate HasFile(files: Files, p: Path, data: string) { p in files && files[p] == data }

  ghost predicate SameAt(files: Files, files': Files, p: Path) {
    (p in files' <==> p in files) && (p in files ==> files'[p] == files[p])
  }

  /** Only these may have changed. */
  ghost predicate ChangedOnly(files: Files, files': Files, ps: set<Path>) {
    forall p :: p !in ps ==> SameAt(files, files', p)
  }

  lemma ChangedTwice(f0: Files, f1: Files, f2: Files, ps: set<Path>, qs: set<Path>)
    requires ChangedOnly(f0, f1, ps) && ChangedOnly(f1, f2, qs)
    ensures ChangedOnly(f0, f2, ps + qs)
  {
    forall p | p !in ps + qs ensures SameAt(f0, f2, p) { assert SameAt(f0, f1, p) && SameAt(f1, f2, p); }
  }

  lemma ChangedWithin(f0: Files, f1: Files, f2: Files, ps: set<Path>, qs: set<Path>)
    requires ChangedOnly(f0, f1, qs) && ChangedOnly(f1, f2, ps) && ps <= qs
    ensures ChangedOnly(f0, f2, qs)
  {
    ChangedTwice(f0, f1, f2, qs, ps);
    assert qs + ps == qs;
  }

  lemma ChangedMore(f0: Files, f1: Files, ps: set<Path>, qs: set<Path>)
    requires ChangedOnly(f0, f1, ps) && ps <= qs
    ensures ChangedOnly(f0, f1, qs)
  {
  }

  /** Only `dst` may have changed. */
  ghost predicate ChangedAt(files: Files, files': Files, dst: Path) {
    forall p :: p != dst ==> (p in files' <==> p in files) && (p in files ==> files'[p] == files[p])
  }

  class Partition {
    const faulty: bool
    var files: Files

    /** EfiBoot::CompareFiles (lines 3542-3593) */
    method CompareFiles(a: Path, b: Path) returns (same: bool)
      ensures same <==> a in files && b in files && files[a] == files[b]
    {
      same := a in files && b in files && files[a] == files[b];
    }

    /** EfiBoot::RenameFile (lines 3778-3793): a source identical to its target is deleted. */
    method RenameFile(src: Path, dst: Path, force: bool) returns (ok: bool)
      modifies `files
      ensures ok ==> src in old(files) && files == Renamed(old(files), src, dst)
      ensures ok ==> CanRename(old(files), src, dst, force)
      ensures !ok ==> files == old(files)
      ensures !faulty ==> ok == CanRename(old(files), src, dst, force)
      // a file is moved and keeps its contents; one that is moved onto itself is gone
      ensures ok ==> src !in files && (src != dst ==> dst in files && files[dst] == old(files)[src])
      ensures ChangedOnly(old(files), files, {src, dst})
    {
      var works: bool := *;
      ok := RenameIf(src, dst, force, works);
    }

    /** The same, where it is known whether a disk that may fail carries it out. */
    method RenameIf(src: Path, dst: Path, force: bool, works: bool) returns (ok: bool)
      modifies `files
      ensures ok ==> src in old(files) && files == Renamed(old(files), src, dst)
      ensures !ok ==> files == old(files)
      ensures ok <==> CanRename(old(files), src, dst, force) && (works || !faulty)
    {
      var same := CompareFiles(src, dst);
      if faulty && !works { return false; }
      if same {
        files := files - {src};
        ok := true;
      } else if src in files && (dst !in files || force) {
        files := Renamed(files, src, dst);
        ok := true;
      } else {
        ok := false;
      }
    }

    /** EfiBoot::CopyFile (lines 3761-3776). A copy that fails leaves anything in the target. */
    method CopyFile(src: Path, dst: Path) returns (r: Outcome)
      modifies `files
      ensures r.Success? ==> src in old(files) && files == old(files)[dst := old(files)[src]]
      ensures ChangedAt(old(files), files, dst)
      ensures !faulty ==> (r.Success? <==> src in old(files))
    {
      var same := CompareFiles(src, dst);
      if same { return Success; }
      if src !in files { return Failure; }
      var fails: bool := *;
      if faulty && fails {
        Damage(dst);
        return Failure;
      }
      files := files[dst := files[src]];
      r := Success;
    }

    method Damage(p: Path)
      modifies `files
      ensures ChangedAt(old(files), files, p)
    {
      var gone: bool := *;
      var rest: string := *;
      files := if gone then files - {p} else files[p := rest];
    }

    /** EfiBoot::SaveFile (lines 3682-3693) */
    method SaveFile(p: Path, data: string) returns (r: Outcome)
      modifies `files
      ensures r.Success? ==> files == old(files)[p := data]
      ensures ChangedAt(old(files), files, p)
      ensures !faulty ==> r.Success?
    {
      if p in files && files[p] == data { return Success; }
      var fails: bool := *;
      if faulty && fails {
        Damage(p);
        return Failure;
      }
      files := files[p := data];
      r := Success;
    }

    /** EfiBoot::DelFile (lines 3795-3799) */
    method DelFile(p: Path)
      modifies `files
      ensures files == old(files) - {p} || (faulty && files == old(files))
    {
      var fails: bool := *;
      if !(faulty && fails) { files := files - {p}; }
    }

    /** EfiBoot::IsVeraCryptBootLoader (lines 3662-3669): a failure is an exception. */
    method IsVeraCryptBootLoader(p: Path) returns (r: Outcome, yes: bool)
      ensures r.Success? <==> (p in files ==> |files[p]| <= 16777216)
      ensures r.Success? ==> (yes <==> p in files && VeraCrypt(files[p]))
      ensures r.Success? ==> (yes <==> p in files && (HasPattern(files[p], Wide("VeraCrypt")) || HasPattern(files[p], "VeraCrypt")))
    {
      if p !in files || files[p] == "" {
        EmptyLoader();
        return Success, false;
      }
      if |files[p]| > MAX_SIZE { return Failure, false; }
      yes := HoldsVeraCrypt(files[p]);
      r := Success;
    }

    /** EfiBoot::IsWindowsBootLoader (lines 3671-3680) */
    method IsWindowsBootLoader(p: Path) returns (r: Outcome, yes: bool)
      ensures r.Success? <==> (p in files ==> |files[p]| <= 16777216)
      ensures r.Success? ==> (yes <==> p in files && Windows(files[p]))
      ensures r.Success? ==> (yes <==> p in files && HasPattern(files[p], "bootmgfw.pdb")
                                       && !HasPattern(files[p], Wide("VeraCrypt")) && !HasPattern(files[p], "VeraCrypt"))
    {
      if p !in files || files[p] == "" {
        EmptyLoader();
        return Success, false;
      }
      if |files[p]| > MAX_SIZE { return Failure, false; }
      var own := HoldsVeraCrypt(files[p]);
      var ms := BufferHasPattern(files[p], MS_STRING);
      yes := !own && ms;
      r := Success;
    }
  }

  /** BufferHasVeraCryptBootLoaderPattern (lines 3655-3660) */
  method HoldsVeraCrypt(c: string) returns (found: bool)
    ensures found == VeraCrypt(c)
  {
    found := BufferHasPattern(c, Wide(APP_NAME));
    if !found { found := BufferHasPattern(c, APP_NAME); }
  }

  lemma EmptyLoader()
    ensures !VeraCrypt("") && !Ms("")
  {
    assert Wide(APP_NAME) != "";
  }
}

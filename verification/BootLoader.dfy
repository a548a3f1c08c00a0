/** BackupSystemLoader, the first installation of the boot loader and RestoreSystemLoader
    on a GPT disk, in BootEncryption.cpp. */
module BootLoader {
  import opened BootOrder
  import opened BootFiles

  /** The number of the program's entries in the firmware. */
  const ENTRY: nat := 0xDC5B

  /** Every loader can be read as a whole. */
  ghost predicate Readable(files: Files) {
    && (MsLoader in files ==> |files[MsLoader]| <= MAX_SIZE) && (MsBackup in files ==> |files[MsBackup]| <= MAX_SIZE)
    && (EfiLoader in files ==> |files[EfiLoader]| <= MAX_SIZE) && (EfiBackup in files ==> |files[EfiBackup]| <= MAX_SIZE)
  }

  ghost predicate IsWindowsAt(files: Files, p: Path) { p in files && Windows(files[p]) }
  ghost predicate IsVeraCryptAt(files: Files, p: Path) { p in files && VeraCrypt(files[p]) }

  /** The file that the configuration starts after a password has been accepted. */
  ghost predicate Configured(files: Files, config: string -> Option<Path>, p: Path) {
    Own(DcsProp) in files && config(files[Own(DcsProp)]) == Some(p)
  }

  /** Files of VeraCrypt's own are still there, except for a Windows loader that the
      configuration names. */
  ghost predicate OwnKept(files: Files, files': Files, config: string -> Option<Path>) {
    forall f :: Own(f) in files ==>
      || (Own(f) in files' && files'[Own(f)] == files[Own(f)])
      || (Windows(files[Own(f)]) && Configured(files, config, Own(f)))
  }

  // ----- what restoring should find -----

  /** The fallback loader after its backup has been put back. */
  ghost function Fallback(files: Files): Option<string> {
    if IsWindowsAt(files, EfiLoader) then Some(files[EfiLoader])
    else if EfiBackup in files then Some(files[EfiBackup])
    else if EfiLoader in files then Some(files[EfiLoader])
    else None
  }

  /** The files with the backup of the fallback loader put back. */
  ghost function FallbackBack(files: Files): Files {
    if !IsWindowsAt(files, EfiLoader) && EfiBackup in files then Renamed(files, EfiBackup, EfiLoader) else files
  }

  /** The files with the backup of the Windows loader put back. */
  ghost function MsBack(files: Files): Files
    requires IsWindowsAt(files, MsLoader) || MsBackup in files
  {
    if IsWindowsAt(files, MsLoader) then files else Renamed(files, MsBackup, MsLoader)
  }

  lemma BackReadable(files: Files)
    requires Readable(files) && MsBackup in files
    ensures MsBackup in FallbackBack(files) && Readable(FallbackBack(files)) && Readable(MsBack(FallbackBack(files)))
    ensures EfiLoader in files ==> |files[EfiLoader]| <= MAX_SIZE
    ensures MsLoader in FallbackBack(files) ==> |FallbackBack(files)[MsLoader]| <= MAX_SIZE
  {
  }

  /** The files of VeraCrypt's own are the same. */
  ghost predicate OwnSame(files: Files, files': Files) {
    forall f :: (Own(f) in files' <==> Own(f) in files) && (Own(f) in files ==> files'[Own(f)] == files[Own(f)])
  }

  lemma KeptByFallback(files: Files, files1: Files, config: string -> Option<Path>)
    requires files1 == files || (EfiBackup in files && files1 == Renamed(files, EfiBackup, EfiLoader))
    ensures OwnSame(files, files1) && OwnKept(files, files1, config)
  {
  }

  lemma KeptByMs(files: Files, files1: Files, files2: Files, config: string -> Option<Path>)
    requires OwnSame(files, files1)
    requires files2 == files1
             || (MsBackup in files1 && files2 == Renamed(files1, MsBackup, MsLoader))
             || exists p :: Configured(files1, config, p) && p != MsLoader && p != MsBackup
                            && IsWindowsAt(files1, p) && files2 == Renamed(files1, p, MsLoader)
    ensures OwnKept(files, files2, config)
  {
    if files2 == files1 || (MsBackup in files1 && files2 == Renamed(files1, MsBackup, MsLoader)) {
    } else {
      var p :| Configured(files1, config, p) && p != MsLoader && p != MsBackup
               && IsWindowsAt(files1, p) && files2 == Renamed(files1, p, MsLoader);
      assert Configured(files, config, p);
    }
  }

  lemma KeptByChange(files: Files, files1: Files, files2: Files, p: Path, config: string -> Option<Path>)
    requires OwnKept(files, files1, config) && ChangedAt(files1, files2, p) && !p.Own?
    ensures OwnKept(files, files2, config)
  {
  }

  lemma EnsuredReadable(files: Files, files': Files)
    requires Readable(files)
    requires if IsWindowsAt(files, MsLoader) then files' == files
             else EfiLoader in files && files' == files[MsLoader := files[EfiLoader]]
    ensures Readable(files')
  {
  }

  lemma NotRestored(files: Files, files2: Files, files': Files)
    requires MsBackup in files && MsBackup in FallbackBack(files) && files2 == MsBack(FallbackBack(files))
    requires !IsWindowsAt(files2, MsLoader) && !IsWindowsAt(files2, EfiLoader)
    ensures Restored(files, files', Failure)
  {
    hide HasPattern, Wide;
  }

  lemma RestoredBy(files: Files, files2: Files, files3: Files, files': Files)
    requires MsBackup in files && MsBackup in FallbackBack(files) && files2 == MsBack(FallbackBack(files))
    requires IsWindowsAt(files2, MsLoader) || IsWindowsAt(files2, EfiLoader)
    requires files3 == if IsWindowsAt(files2, MsLoader) then files2 else files2[MsLoader := files2[EfiLoader]]
    requires files' == if IsVeraCryptAt(files3, EfiLoader) then files3[EfiLoader := files3[MsLoader]] else files3
    ensures Restored(files, files', Success)
  {
    hide HasPattern, Wide;
  }

  class BootEncryption {
    const disk: Partition
    const firmware: Firmware

    constructor (disk: Partition, firmware: Firmware)
      ensures this.disk == disk && this.firmware == firmware
    {
      this.disk, this.firmware := disk, firmware;
    }

    ghost predicate Valid()
      reads firmware
    {
      firmware.Valid()
    }

    /** Put the backup of the fallback loader back (lines 5216-5217). */
    method RestoreFallback() returns (r: Outcome)
      modifies disk`files
      ensures disk.files == old(disk.files)
              || (EfiBackup in old(disk.files) && disk.files == Renamed(old(disk.files), EfiBackup, EfiLoader))
      ensures r.Success? <==> (EfiLoader in old(disk.files) ==> |old(disk.files)[EfiLoader]| <= MAX_SIZE)
      ensures r.Success? && !disk.faulty ==>
                disk.files == FallbackBack(old(disk.files))
      // a Windows loader stays, anything else is replaced by the backup if there is one
      ensures r.Success? && EfiLoader in old(disk.files) && Windows(old(disk.files)[EfiLoader]) ==> disk.files == old(disk.files)
      ensures r.Success? && !disk.faulty && EfiBackup in old(disk.files)
              && (EfiLoader in old(disk.files) ==> !Windows(old(disk.files)[EfiLoader])) ==>
                HasFile(disk.files, EfiLoader, old(disk.files)[EfiBackup]) && EfiBackup !in disk.files
      ensures ChangedOnly(old(disk.files), disk.files, {EfiLoader, EfiBackup})
    {
      var windows: bool;
      r, windows := disk.IsWindowsBootLoader(EfiLoader);
      if r.Failure? { return; }
      if !windows { var _ := disk.RenameFile(EfiBackup, EfiLoader, true); }
    }

    /** Put the Windows loader back from its backup, or else from where the configuration
        says it is (lines 5219-5250). */
    method RestoreMs(config: string -> Option<Path>) returns (r: Outcome)
      modifies disk`files
      ensures r.Success? <==> (MsLoader in old(disk.files) ==> |old(disk.files)[MsLoader]| <= MAX_SIZE)
      ensures disk.files == old(disk.files)
              || (MsBackup in old(disk.files) && disk.files == Renamed(old(disk.files), MsBackup, MsLoader))
              || exists p :: Configured(old(disk.files), config, p) && p != MsLoader && p != MsBackup
                             && IsWindowsAt(old(disk.files), p) && disk.files == Renamed(old(disk.files), p, MsLoader)
      ensures r.Success? && !disk.faulty && (IsWindowsAt(old(disk.files), MsLoader) || MsBackup in old(disk.files)) ==>
                disk.files == MsBack(old(disk.files))
      // a Windows loader stays, anything else is replaced by the backup if there is one
      ensures r.Success? && MsLoader in old(disk.files) && Windows(old(disk.files)[MsLoader]) ==> disk.files == old(disk.files)
      ensures r.Success? && !disk.faulty && MsBackup in old(disk.files)
              && (MsLoader in old(disk.files) ==> !Windows(old(disk.files)[MsLoader])) ==>
                HasFile(disk.files, MsLoader, old(disk.files)[MsBackup]) && MsBackup !in disk.files
    {
      hide HasPattern, Wide;
      var windows: bool;
      r, windows := disk.IsWindowsBootLoader(MsLoader);
      if r.Failure? || windows { return; }
      var renamed := disk.RenameFile(MsBackup, MsLoader, true);
      if !renamed && Own(DcsProp) in disk.files {
        var named := config(disk.files[Own(DcsProp)]);
        if named.Some? {
          var p := named.value;
          if p != MsBackup && p != MsLoader && p in disk.files {
            var ms := BufferHasPattern(disk.files[p], MS_STRING);
            var own := HoldsVeraCrypt(disk.files[p]);
            if ms && !own { var _ := disk.RenameFile(p, MsLoader, true); }
          }
        }
      }
    }

    /** Make sure of a Windows loader, if need be from the fallback loader (lines 5252-5266). */
    method EnsureMs() returns (r: Outcome)
      modifies disk`files
      ensures ChangedAt(old(disk.files), disk.files, MsLoader)
      ensures r.Success? ==> IsWindowsAt(disk.files, MsLoader)
      ensures r.Success? && IsWindowsAt(old(disk.files), MsLoader) ==> disk.files == old(disk.files)
      ensures r.Success? && !IsWindowsAt(old(disk.files), MsLoader) ==>
                EfiLoader in old(disk.files) && disk.files == old(disk.files)[MsLoader := old(disk.files)[EfiLoader]]
      ensures !disk.faulty && Readable(old(disk.files)) ==>
                (r.Success? <==> IsWindowsAt(old(disk.files), MsLoader) || IsWindowsAt(old(disk.files), EfiLoader))
    {
      var restored: bool;
      r, restored := disk.IsWindowsBootLoader(MsLoader);
      if r.Failure? || restored { return; }
      var windows: bool;
      r, windows := disk.IsWindowsBootLoader(EfiLoader);
      if r.Failure? { return; }
      if windows {
        r := disk.CopyFile(EfiLoader, MsLoader);
        if r.Failure? { return; }
        r, restored := disk.IsWindowsBootLoader(MsLoader);
        if r.Failure? { return; }
      }
      if !restored { return Failure; }
    }

    /** Replace a fallback loader that is still VeraCrypt's (lines 5268-5277). */
    method EnsureFallback() returns (r: Outcome)
      requires IsWindowsAt(disk.files, MsLoader)
      modifies disk`files
      ensures ChangedAt(old(disk.files), disk.files, EfiLoader)
      ensures r.Success? ==> !IsVeraCryptAt(disk.files, EfiLoader)
      ensures r.Success? ==>
                disk.files == if IsVeraCryptAt(old(disk.files), EfiLoader)
                              then old(disk.files)[EfiLoader := old(disk.files)[MsLoader]] else old(disk.files)
      ensures !disk.faulty && Readable(old(disk.files)) ==> r.Success?
    {
      var own: bool;
      r, own := disk.IsVeraCryptBootLoader(EfiLoader);
      if r.Failure? || !own { return; }
      r := disk.CopyFile(MsLoader, EfiLoader);
      if r.Failure? { return; }
      r, own := disk.IsVeraCryptBootLoader(EfiLoader);
      if r.Failure? { return; }
      var windows: bool;
      r, windows := disk.IsWindowsBootLoader(EfiLoader);
      if r.Failure? { return; }
      if own || !windows { return Failure; }
    }

    /** Delete the firmware's entries (lines 5279-5286). */
    method RemoveEntries(readable: Kind -> bool) returns (r: Outcome)
      requires Valid()
      modifies firmware`vars
      ensures Valid()
      ensures r.Success? ==> EntriesDeleted(old(firmware.vars), readable)
      ensures FirmwareSound(old(firmware.vars)) ==> r.Success?
    {
      var boot := firmware.DeleteStartExec(ENTRY, Boot, readable(Boot));
      if boot.Thrown? { return Failure; }
      var driver := firmware.DeleteStartExec(ENTRY, Driver, readable(Driver));
      if driver.Thrown? { return Failure; }
      r := if boot.done && driver.done then Success else Failure;
    }

    /** The firmware does what it is asked to. */
    ghost predicate FirmwareSound(vars: map<Kind, Variables>) {
      && Boot in vars && Driver in vars && !firmware.faulty && firmware.efi && firmware.privileged
      && |vars[Boot].order| <= ROOM && |vars[Driver].order| <= ROOM
    }

    /** Both entries have been deleted, as far as a success tells. */
    ghost predicate EntriesDeleted(vars: map<Kind, Variables>, readable: Kind -> bool)
      reads firmware
    {
      && Boot in vars && Driver in vars && Boot in firmware.vars && Driver in firmware.vars
      && firmware.vars[Boot] == Deleted(vars[Boot], ENTRY, readable(Boot))
      && firmware.vars[Driver] == Deleted(vars[Driver], ENTRY, readable(Driver))
    }

    /** Everything before the firmware is touched (lines 5216-5277). */
    method RestoreFiles(config: string -> Option<Path>) returns (r: Outcome)
      modifies disk`files
      ensures r.Success? ==> IsWindowsAt(disk.files, MsLoader) && !IsVeraCryptAt(disk.files, EfiLoader)
      ensures OwnKept(old(disk.files), disk.files, config)
      ensures !disk.faulty && Readable(old(disk.files)) && MsBackup in old(disk.files) ==>
                Restored(old(disk.files), disk.files, r)
    {
      hide OwnKept, Restored, Configured, Readable, Fallback, FallbackBack, MsBack, Renamed, ChangedAt, HasPattern, Wide;
      ghost var f0 := disk.files;
      ghost var sound := !disk.faulty && Readable(f0) && MsBackup in f0;
      if sound { BackReadable(f0); }
      r := RestoreFallback();
      ghost var f1 := disk.files;
      KeptByFallback(f0, f1, config);
      if r.Failure? { return; }
      r := RestoreMs(config);
      ghost var f2 := disk.files;
      KeptByMs(f0, f1, f2, config);
      if r.Failure? { return; }
      r := EnsureMs();
      ghost var f3 := disk.files;
      KeptByChange(f0, f2, f3, MsLoader, config);
      if r.Failure? {
        if sound { NotRestored(f0, f2, f3); }
        return;
      }
      if sound { EnsuredReadable(f2, f3); }
      r := EnsureFallback();
      KeptByChange(f0, f3, disk.files, EfiLoader, config);
      if sound { RestoredBy(f0, f2, f3, disk.files); }
    }

    /** Delete VeraCrypt's files, once both entries have been deleted (lines 5288-5303). */
    method DeleteOwnFiles(ghost vars: map<Kind, Variables>, ghost readable: Kind -> bool)
      requires EntriesDeleted(vars, readable)
      modifies disk`files
      ensures OthersSame(old(disk.files), disk.files)
      ensures !disk.faulty ==> forall f :: Own(f) !in disk.files
    {
      var names := [RootDcsBoot, RootDcsInt, RootDcsCfg, RootLegacySpeaker, RootDcsBootConfig, RootDcsProp, DcsBoot, DcsInt,
                    DcsCfg, LegacySpeaker, DcsBml, DcsBootConfig, DcsInfo, PlatformInfo, DcsProp];
      AllNamed(names);
      DeleteAll(names);
    }

    method DeleteAll(names: seq<OwnFile>)
      modifies disk`files
      ensures ChangedOnly(old(disk.files), disk.files, set f | f in names :: Own(f)) && OthersSame(old(disk.files), disk.files)
      ensures !disk.faulty ==> forall f :: f in names ==> Own(f) !in disk.files
    {
      for i := 0 to |names|
        invariant forall p: Path :: !(p.Own? && p.file in names) ==> SameAt(old(disk.files), disk.files, p)
        invariant !disk.faulty ==> forall f :: f in names[..i] ==> Own(f) !in disk.files
      {
        disk.DelFile(Own(names[i]));
      }
      forall p: Path | !p.Own? ensures SameAt(old(disk.files), disk.files, p) { }
    }

    /** RestoreSystemLoader (lines 5192-5303): from any state of the files it either fails,
        keeping VeraCrypt's files, or leaves a Windows loader, no VeraCrypt fallback loader
        and no entry in the firmware, which may still be told to use it next time if it
        does not let that be read. */
    method RestoreSystemLoader(config: string -> Option<Path>, readable: Kind -> bool) returns (r: Outcome)
      requires Valid()
      modifies disk`files, firmware`vars
      ensures r.Success? ==> IsWindowsAt(disk.files, MsLoader) && !IsVeraCryptAt(disk.files, EfiLoader)
      ensures r.Success? ==> EntriesDeleted(old(firmware.vars), readable)
      ensures r.Success? ==> 0xDC5B !in firmware.vars[Boot].entries && 0xDC5B !in firmware.vars[Driver].entries
      ensures r.Success? && !disk.faulty ==> forall f :: Own(f) !in disk.files
      ensures r.Failure? ==> OwnKept(old(disk.files), disk.files, config)
      ensures FirmwareSound(old(firmware.vars)) && !disk.faulty && Readable(old(disk.files)) && MsBackup in old(disk.files) ==>
                Restored(old(disk.files), disk.files, r)
    {
      r := RestoreFiles(config);
      if r.Failure? { return; }
      r := RemoveEntries(readable);
      if r.Failure? { return; }
      DeleteOwnFiles(old(firmware.vars), readable);
    }

    /** If only reading the entry for the next time fails, restoring succeeds and deletes
        VeraCrypt's files, and the firmware is left to start them once more. */
    method RestoreLeavesNext(config: string -> Option<Path>) returns (r: Outcome)
      requires Valid() && FirmwareSound(firmware.vars) && !disk.faulty && Readable(disk.files)
      requires MsBackup in disk.files && IsWindowsAt(disk.files, MsLoader)
      requires ENTRY in firmware.vars[Boot].order && firmware.vars[Boot].next == Some(ENTRY)
      modifies disk`files, firmware`vars
      ensures r.Success? && IsWindowsAt(disk.files, MsLoader) && forall f :: Own(f) !in disk.files
      ensures Valid() && ENTRY !in firmware.vars[Boot].entries && firmware.vars[Boot].next == Some(ENTRY)
    {
      r := RestoreSystemLoader(config, k => k == Driver);
    }

    /** BackupSystemLoader (lines 5088-5165). `proceed` is the answer to the question that is
        asked when the loader is already VeraCrypt's. */
    method BackupSystemLoader(proceed: bool) returns (r: Outcome)
      modifies disk`files
      ensures r.Success? ==> BackedUp(old(disk.files), disk.files)
                             || (disk.files == old(disk.files) && IsInstalledAt(disk.files, MsLoader) && proceed)
      ensures IsMsAt(old(disk.files), MsLoader) && !disk.faulty ==>
                r.Success? && disk.files == old(disk.files)[MsBackup := old(disk.files)[MsLoader]][SystemBackup := old(disk.files)[MsLoader]]
    {
      hide HasPattern, Wide;
      if MsLoader !in disk.files { return Failure; }
      var loader := disk.files[MsLoader];
      var modified := true;
      if |loader| > SMALL {
        var ms := BufferHasPattern(loader, MS_STRING);
        modified := !ms;
      } else {
        var own := BufferHasPattern(loader, Wide(APP_NAME));
        if own {
          if !proceed { return Failure; }
          if MsBackup in disk.files {
            var ms := BufferHasPattern(disk.files[MsBackup], MS_STRING);
            if ms {
              r := disk.CopyFile(MsBackup, MsLoader);
              if r.Failure? { return; }
              modified := false;
            }
          }
          if modified { return Success; }
        }
      }
      if modified { return Failure; }
      r := disk.CopyFile(MsLoader, MsBackup);
      if r.Failure? { return; }
      r := disk.CopyFile(MsLoader, SystemBackup);
    }

    /** Put the program's loader in the place of a fallback loader that is Microsoft's or
        its own (lines 4231-4251). */
    method ReplaceFallback(dcsBoot: string) returns (r: Outcome)
      modifies disk`files
      ensures ChangedOnly(old(disk.files), disk.files, {EfiLoader, EfiBackup})
      ensures !disk.faulty ==> r.Success? && disk.files == Replaced(old(disk.files), dcsBoot)
    {
      hide HasPattern, Wide;
      r := Success;
      if EfiLoader in disk.files {
        var loader := disk.files[EfiLoader];
        var ms := BufferHasPattern(loader, MS_STRING);
        if |loader| > SMALL && ms {
          var _ := disk.RenameFile(EfiLoader, EfiBackup, true);
          r := disk.SaveFile(EfiLoader, dcsBoot);
          if r.Failure? { return; }
        }
        var own := BufferHasPattern(loader, Wide(APP_NAME));
        if |loader| <= SMALL && own { r := disk.SaveFile(EfiLoader, dcsBoot); }
      }
    }

    /** SaveEfiBootLoaderImages (lines 3096-3106): each file gets its own image. */
    method SaveImages(images: Images) returns (r: Outcome)
      modifies disk`files
      ensures ChangedOnly(old(disk.files), disk.files, ImageFiles()) && OthersSame(old(disk.files), disk.files)
      ensures !disk.faulty ==> r.Success?
      ensures r.Success? ==>
                && HasFile(disk.files, Own(DcsBoot), images.dcsBoot)
                && HasFile(disk.files, Own(DcsInt), images.dcsInt)
                && HasFile(disk.files, Own(DcsCfg), images.dcsCfg)
                && HasFile(disk.files, Own(LegacySpeaker), images.legacySpeaker)
                && HasFile(disk.files, Own(DcsInfo), images.dcsInfo)
    {
      hide ChangedAt, ChangedOnly, OthersSame;
      ghost var f0 := disk.files;
      ImagesStart(f0);
      r := disk.SaveFile(Own(DcsBoot), images.dcsBoot);
      ghost var f1 := disk.files;
      ImageKeeps(f0, f0, f1, DcsBoot);
      if r.Failure? { return; }
      r := disk.SaveFile(Own(DcsInt), images.dcsInt);
      ghost var f2 := disk.files;
      ImageKeeps(f0, f1, f2, DcsInt);
      if r.Failure? { return; }
      r := disk.SaveFile(Own(DcsCfg), images.dcsCfg);
      ghost var f3 := disk.files;
      ImageKeeps(f0, f2, f3, DcsCfg);
      if r.Failure? { return; }
      r := disk.SaveFile(Own(LegacySpeaker), images.legacySpeaker);
      ghost var f4 := disk.files;
      ImageKeeps(f0, f3, f4, LegacySpeaker);
      if r.Failure? { return; }
      r := disk.SaveFile(Own(DcsInfo), images.dcsInfo);
      ImageKeeps(f0, f4, disk.files, DcsInfo);
    }

    /** Move a file, unless there is a different one in the place. */
    method MoveOld(src: Path, dst: Path)
      requires src != dst
      modifies disk`files
      ensures ChangedOnly(old(disk.files), disk.files, {src, dst})
      ensures !disk.faulty ==> MovedTo(old(disk.files), disk.files, src, dst)
      ensures !disk.faulty ==>
                (src in disk.files <==> src in old(disk.files) && dst in old(disk.files) && old(disk.files)[src] != old(disk.files)[dst])
    {
      var _ := disk.RenameFile(src, dst, false);
    }

    /** Move old files to where they are now, delete older ones and write the configuration
        (lines 4253-4279). */
    method Tidy(props: string)
      modifies disk`files
      ensures ChangedOnly(old(disk.files), disk.files, OldFiles())
      ensures !disk.faulty ==> BackupMoved(old(disk.files), disk.files) && Tidied(old(disk.files), disk.files, props)
    {
      hide ChangedOnly, MovedTo, BackupMoved, Tidied, OldFiles;
      ghost var f0 := disk.files;
      MoveOld(Own(RootDcsProp), Own(DcsProp));
      ghost var f1 := disk.files;
      MoveOld(Own(RootDcsBootConfig), Own(DcsBootConfig));
      ghost var f2 := disk.files;
      MoveOld(OldEfiBackup, EfiBackup);
      ghost var f3 := disk.files;
      var names := [RootDcsBoot, RootDcsInt, RootDcsCfg, RootLegacySpeaker, RootDcsBootConfig, RootDcsProp, DcsBml];
      DeleteAll(names);
      ghost var f4 := disk.files;
      var _ := disk.SaveFile(Own(DcsProp), props);
      TidyKeeps(f0, f1, f2, f3, f4, disk.files, names);
      if !disk.faulty { TidyDone(f0, f1, f2, f3, f4, disk.files, names, props); }
    }

    /** Both loaders, and what is done with old files. */
    method PlaceLoaders(dcsBoot: string, props: string) returns (r: Outcome)
      modifies disk`files
      ensures ChangedOnly(old(disk.files), disk.files, LoaderFiles())
      ensures r.Success? ==> HasFile(disk.files, MsLoader, dcsBoot)
      ensures !disk.faulty ==> r.Success? && Installed(old(disk.files), disk.files, dcsBoot)
      ensures !disk.faulty ==> Tidied(old(disk.files), disk.files, props)
    {
      hide Replaced, Tidied, BackupMoved, ChangedOnly;
      ghost var f0 := disk.files;
      r := ReplaceFallback(dcsBoot);
      ghost var f1 := disk.files;
      ChangedMore(f0, f1, {EfiLoader, EfiBackup}, LoaderFiles());
      if r.Failure? { return; }
      r := disk.SaveFile(MsLoader, dcsBoot);
      ghost var f2 := disk.files;
      ChangedOne(f1, f2, MsLoader);
      ChangedTwice(f0, f1, f2, {EfiLoader, EfiBackup}, {MsLoader});
      ChangedMore(f0, f2, {EfiLoader, EfiBackup} + {MsLoader}, LoaderFiles());
      if r.Failure? { return; }
      Tidy(props);
      ChangedTwice(f0, f2, disk.files, {EfiLoader, EfiBackup} + {MsLoader}, OldFiles());
      Placed(f0, f1, f2, disk.files, dcsBoot, props);
    }

    /** Save the images and make the entry (lines 4222-4229). */
    method SaveAndEnter(preserve: bool, images: Images, load: string, windows: string -> bool, device: bool,
                        setEntry: bool, forceFirst: bool, setNext: bool) returns (r: Outcome)
      requires Valid() && |firmware.vars[Boot].order| < ROOM
      modifies disk`files, firmware`vars
      ensures Valid() && ChangedOnly(old(disk.files), disk.files, ImageFiles() + {Own(PlatformInfo)})
      ensures r.Success? ==> AllSaved(disk.files, images)
      ensures FirmwareSound(old(firmware.vars)) && !disk.faulty ==>
                r.Success? && if preserve then SameAt(old(disk.files), disk.files, Own(PlatformInfo)) else Own(PlatformInfo) !in disk.files
      ensures FirmwareSound(old(firmware.vars)) && !disk.faulty ==>
                Boot in old(firmware.vars) && Driver in old(firmware.vars)
                && firmware.vars[Driver] == old(firmware.vars)[Driver]
                && firmware.vars[Boot] == Entered(old(firmware.vars)[Boot], ENTRY, load, windows, device, setEntry, forceFirst, setNext)
                && |firmware.vars[Boot].order| <= ROOM
                && (device ==> 0xDC5B in firmware.vars[Boot].entries && firmware.vars[Boot].entries[0xDC5B] == load)
    {
      hide Entered;
      r := SaveImages(images);
      if r.Failure? { return; }
      ghost var saved := disk.files;
      if !preserve { disk.DelFile(Own(PlatformInfo)); }
      SavedStill(saved, disk.files, images);
      var answer := firmware.SetStartExec(ENTRY, Boot, load, windows, device, setEntry, forceFirst, setNext);
      if answer.Thrown? { return Failure; }
      EnteredIs(old(firmware.vars[Boot]), ENTRY, load, windows, device, setEntry, forceFirst, setNext);
    }

    /** A first installation of the boot loader, or the rest of an update (lines 4222-4279):
        `props` is the new configuration file. Whatever fails, nothing but the named files is
        touched, so that the backups of the Windows loader are kept. */
    method InstallBootLoader(preserve: bool, images: Images, props: string, load: string, windows: string -> bool, device: bool,
                             setEntry: bool, forceFirst: bool, setNext: bool) returns (r: Outcome)
      requires Valid() && |firmware.vars[Boot].order| < ROOM
      modifies disk`files, firmware`vars
      ensures Valid()
      ensures ChangedOnly(old(disk.files), disk.files, ImageFiles() + {Own(PlatformInfo)} + LoaderFiles())
      ensures SameAt(old(disk.files), disk.files, MsBackup) && SameAt(old(disk.files), disk.files, SystemBackup)
      ensures r.Success? ==>
                && HasFile(disk.files, MsLoader, images.dcsBoot)
                && HasFile(disk.files, Own(DcsBoot), images.dcsBoot)
                && HasFile(disk.files, Own(DcsInt), images.dcsInt)
                && HasFile(disk.files, Own(DcsCfg), images.dcsCfg)
                && HasFile(disk.files, Own(LegacySpeaker), images.legacySpeaker)
                && HasFile(disk.files, Own(DcsInfo), images.dcsInfo)
      ensures FirmwareSound(old(firmware.vars)) && !disk.faulty ==>
                r.Success? && Installed(old(disk.files), disk.files, images.dcsBoot) && Tidied(old(disk.files), disk.files, props)
      // a fallback loader that is Microsoft's or the program's own is replaced, and Microsoft's is kept as a backup
      ensures FirmwareSound(old(firmware.vars)) && !disk.faulty && EfiLoader in old(disk.files) ==>
                var c := old(disk.files)[EfiLoader];
                && HasFile(disk.files, EfiLoader,
                           if (|c| > 32768 && HasPattern(c, "bootmgfw.pdb")) || (|c| <= 32768 && HasPattern(c, Wide("VeraCrypt")))
                           then images.dcsBoot else c)
                && (|c| > 32768 && HasPattern(c, "bootmgfw.pdb") ==> HasFile(disk.files, EfiBackup, c))
      ensures FirmwareSound(old(firmware.vars)) && !disk.faulty && EfiLoader !in old(disk.files) ==> EfiLoader !in disk.files
      ensures FirmwareSound(old(firmware.vars)) && !disk.faulty ==>
                if preserve then SameAt(old(disk.files), disk.files, Own(PlatformInfo)) else Own(PlatformInfo) !in disk.files
      ensures FirmwareSound(old(firmware.vars)) && !disk.faulty ==>
                Boot in old(firmware.vars) && Driver in old(firmware.vars)
                && firmware.vars[Driver] == old(firmware.vars)[Driver]
                && firmware.vars[Boot] == Entered(old(firmware.vars)[Boot], ENTRY, load, windows, device, setEntry, forceFirst, setNext)
                && |firmware.vars[Boot].order| <= ROOM
                && (device ==> 0xDC5B in firmware.vars[Boot].entries && firmware.vars[Boot].entries[0xDC5B] == load)
    {
      hide HasPattern, Wide, Tidied, Installed, ImageFiles, LoaderFiles, ChangedOnly, Entered;
      ghost var f0 := disk.files;
      r := SaveAndEnter(preserve, images, load, windows, device, setEntry, forceFirst, setNext);
      ghost var files := disk.files;
      if r.Failure? {
        ChangedMore(f0, files, ImageFiles() + {Own(PlatformInfo)}, ImageFiles() + {Own(PlatformInfo)} + LoaderFiles());
        BackupsSame(f0, files);
        return;
      }
      r := PlaceLoaders(images.dcsBoot, props);
      ChangedTwice(f0, files, disk.files, ImageFiles() + {Own(PlatformInfo)}, LoaderFiles());
      BackupsSame(f0, disk.files);
      ImagesStill(files, disk.files, images);
      if FirmwareSound(old(firmware.vars)) && !disk.faulty {
        InstalledFrom(f0, files, disk.files, images.dcsBoot, props);
        FallbackIs(f0, disk.files, images.dcsBoot);
      }
    }

    /** Backing up, installing and restoring, when nothing fails, the original loader is a
        Windows one and no older backup of the fallback loader is left over. The Windows
        loader comes back; the fallback loader comes back exactly if it was not taken for
        VeraCrypt's own, and is replaced by the Windows loader otherwise. The entry is
        deleted. Nothing names it any more exactly if it was not listed twice before, and if
        it was to come up next time, that could be read and the entry was listed. */
    method BackupInstallRestore(proceed: bool, images: Images, props: string, load: string, windows: string -> bool, device: bool,
                                setEntry: bool, forceFirst: bool, setNext: bool, config: string -> Option<Path>, readable: Kind -> bool)
      requires Valid() && FirmwareSound(firmware.vars) && !disk.faulty
      requires |firmware.vars[Boot].order| < ROOM && Readable(disk.files)
      requires IsMsAt(disk.files, MsLoader) && Windows(disk.files[MsLoader])
      requires EfiBackup !in disk.files && OldEfiBackup !in disk.files
      requires VeraCrypt(images.dcsBoot) && |images.dcsBoot| <= SMALL
      modifies disk`files, firmware`vars
      ensures SameAt(old(disk.files), disk.files, MsLoader)
      ensures SameAt(old(disk.files), disk.files, EfiLoader) <==> !IsVeraCryptAt(old(disk.files), EfiLoader)
      ensures IsVeraCryptAt(old(disk.files), EfiLoader) ==>
                EfiLoader in disk.files && disk.files[EfiLoader] == old(disk.files)[MsLoader]
      ensures forall f :: Own(f) !in disk.files
      ensures Valid() && firmware.vars[Driver] == Deleted(old(firmware.vars[Driver]), ENTRY, readable(Driver))
      ensures var v := old(firmware.vars[Boot]);
              var cleared := readable(Boot) && (ENTRY in v.order || (setEntry && device));
              firmware.vars[Boot] == Variables(v.entries - {ENTRY}, Without(v.order, ENTRY),
                if setNext then (if cleared then None else Some(ENTRY)) else if cleared && v.next == Some(ENTRY) then None else v.next)
      ensures var v := old(firmware.vars[Boot]);
              !Named(firmware.vars[Boot], ENTRY) <==>
              Occurrences(v.order, ENTRY) <= 1
              && (setNext || v.next == Some(ENTRY) ==> readable(Boot) && (ENTRY in v.order || (setEntry && device)))
      ensures var v := old(firmware.vars[Driver]);
              !Named(firmware.vars[Driver], ENTRY) <==>
              Occurrences(v.order, ENTRY) <= 1 && (v.next == Some(ENTRY) ==> readable(Driver) && ENTRY in v.order)
    {
      hide Installed, Restored, Readable, IsWindowsAt, IsVeraCryptAt, SameAt, Deleted, Entered, Named;
      ghost var files, vars := disk.files, firmware.vars;
      var r := BackupSystemLoader(proceed);
      ghost var backed := disk.files;
      r := InstallBootLoader(false, images, props, load, windows, device, setEntry, forceFirst, setNext);
      ghost var installed := disk.files;
      StillReadable(files, backed, installed, images.dcsBoot);
      r := RestoreSystemLoader(config, readable);
      ComesBack(files, backed, installed, disk.files, images.dcsBoot, r);
      EnteredDeleted(vars[Boot], ENTRY, load, windows, device, setEntry, forceFirst, setNext, readable(Boot));
      NothingLeft(vars[Boot], ENTRY, load, windows, device, setEntry, forceFirst, setNext, readable(Boot));
      NothingNamed(vars[Driver], ENTRY, readable(Driver));
    }
  }

  /** What becomes of old files: the configuration is written, the old configuration of the
      loader is moved, and what else there is of old versions is gone. */
  ghost predicate Tidied(files: Files, files': Files, props: string) {
    && HasFile(files', Own(DcsProp), props)
    && Own(RootDcsBoot) !in files' && Own(RootDcsInt) !in files' && Own(RootDcsCfg) !in files' && Own(RootLegacySpeaker) !in files'
    && Own(RootDcsBootConfig) !in files' && Own(RootDcsProp) !in files' && Own(DcsBml) !in files'
    && (Own(DcsBootConfig) in files' <==> Own(DcsBootConfig) in files || Own(RootDcsBootConfig) in files)
    && (Own(DcsBootConfig) in files ==> files'[Own(DcsBootConfig)] == files[Own(DcsBootConfig)])
    && (Own(DcsBootConfig) !in files && Own(RootDcsBootConfig) in files ==> files'[Own(DcsBootConfig)] == files[Own(RootDcsBootConfig)])
  }

  /** A file is moved, unless there is a different one in the place. */
  ghost predicate MovedTo(files: Files, files': Files, src: Path, dst: Path) {
    && (dst in files' <==> dst in files || src in files)
    && (dst in files ==> files'[dst] == files[dst])
    && (dst !in files && src in files ==> files'[dst] == files[src])
  }

  function ImageFiles(): set<Path> { {Own(DcsBoot), Own(DcsInt), Own(DcsCfg), Own(LegacySpeaker), Own(DcsInfo)} }

  /** The files that are moved, deleted or written in the end. */
  function OldFiles(): set<Path> {
    {Own(RootDcsProp), Own(DcsProp), Own(RootDcsBootConfig), Own(DcsBootConfig), OldEfiBackup, EfiBackup,
     Own(RootDcsBoot), Own(RootDcsInt), Own(RootDcsCfg), Own(RootLegacySpeaker), Own(DcsBml)}
  }

  /** The files that are touched after the images. */
  function LoaderFiles(): set<Path> { {EfiLoader, EfiBackup} + {MsLoader} + OldFiles() }

  lemma ImagesStart(files: Files)
    ensures ChangedOnly(files, files, ImageFiles()) && OthersSame(files, files)
  {
  }

  lemma ImageKeeps(files: Files, mid: Files, files': Files, image: OwnFile)
    requires ChangedOnly(files, mid, ImageFiles()) && ChangedAt(mid, files', Own(image)) && Own(image) in ImageFiles()
    ensures ChangedOnly(files, files', ImageFiles()) && OthersSame(files, files')
  {
    forall p: Path | p !in ImageFiles() ensures SameAt(files, files', p) { assert SameAt(files, mid, p); }
    forall p: Path | !p.Own? ensures SameAt(files, files', p) { }
  }

  lemma ChangedOne(files: Files, files': Files, p: Path)
    requires ChangedAt(files, files', p)
    ensures ChangedOnly(files, files', {p})
  {
  }

  lemma TidyKeeps(f0: Files, f1: Files, f2: Files, f3: Files, f4: Files, f5: Files, names: seq<OwnFile>)
    requires names == [RootDcsBoot, RootDcsInt, RootDcsCfg, RootLegacySpeaker, RootDcsBootConfig, RootDcsProp, DcsBml]
    requires ChangedOnly(f0, f1, {Own(RootDcsProp), Own(DcsProp)}) && ChangedOnly(f1, f2, {Own(RootDcsBootConfig), Own(DcsBootConfig)})
    requires ChangedOnly(f2, f3, {OldEfiBackup, EfiBackup}) && ChangedOnly(f3, f4, set f | f in names :: Own(f))
    requires ChangedAt(f4, f5, Own(DcsProp))
    ensures ChangedOnly(f0, f5, OldFiles())
  {
    hide ChangedOnly;
    var a, b := {Own(RootDcsProp), Own(DcsProp)}, {Own(RootDcsBootConfig), Own(DcsBootConfig)};
    var c, d := {OldEfiBackup, EfiBackup}, set f | f in names :: Own(f);
    ChangedTwice(f0, f1, f2, a, b);
    ChangedTwice(f0, f2, f3, a + b, c);
    ChangedTwice(f0, f3, f4, a + b + c, d);
    ChangedOne(f4, f5, Own(DcsProp));
    ChangedTwice(f0, f4, f5, a + b + c + d, {Own(DcsProp)});
    ChangedMore(f0, f5, a + b + c + d + {Own(DcsProp)}, OldFiles());
  }

  lemma TidyDone(f0: Files, f1: Files, f2: Files, f3: Files, f4: Files, f5: Files, names: seq<OwnFile>, props: string)
    requires names == [RootDcsBoot, RootDcsInt, RootDcsCfg, RootLegacySpeaker, RootDcsBootConfig, RootDcsProp, DcsBml]
    requires ChangedOnly(f0, f1, {Own(RootDcsProp), Own(DcsProp)}) && ChangedOnly(f1, f2, {Own(RootDcsBootConfig), Own(DcsBootConfig)})
    requires ChangedOnly(f2, f3, {OldEfiBackup, EfiBackup}) && ChangedOnly(f3, f4, set f | f in names :: Own(f))
    requires MovedTo(f1, f2, Own(RootDcsBootConfig), Own(DcsBootConfig)) && MovedTo(f2, f3, OldEfiBackup, EfiBackup)
    requires (forall f :: f in names ==> Own(f) !in f4) && f5 == f4[Own(DcsProp) := props]
    ensures BackupMoved(f0, f5) && Tidied(f0, f5, props)
  {
    assert SameAt(f0, f1, Own(RootDcsBootConfig)) && SameAt(f0, f1, Own(DcsBootConfig));
    assert SameAt(f2, f3, Own(DcsBootConfig)) && SameAt(f3, f4, Own(DcsBootConfig));
    assert SameAt(f0, f1, EfiBackup) && SameAt(f1, f2, EfiBackup) && SameAt(f3, f4, EfiBackup);
    assert SameAt(f0, f1, OldEfiBackup) && SameAt(f1, f2, OldEfiBackup);
  }

  lemma Placed(f0: Files, f1: Files, f2: Files, f3: Files, dcsBoot: string, props: string)
    requires ChangedOnly(f0, f1, {EfiLoader, EfiBackup}) && f2 == f1[MsLoader := dcsBoot] && ChangedOnly(f2, f3, OldFiles())
    ensures HasFile(f3, MsLoader, dcsBoot)
    ensures f1 == Replaced(f0, dcsBoot) && BackupMoved(f2, f3) ==> Installed(f0, f3, dcsBoot)
    ensures Tidied(f2, f3, props) ==> Tidied(f0, f3, props)
  {
    hide Replaced;
    assert SameAt(f2, f3, MsLoader) && SameAt(f2, f3, EfiLoader);
    assert SameAt(f0, f1, Own(DcsBootConfig)) && SameAt(f0, f1, Own(RootDcsBootConfig)) && SameAt(f0, f1, Own(DcsProp));
  }

  /** Each file holds its own image. */
  ghost predicate AllSaved(files: Files, images: Images) {
    && HasFile(files, Own(DcsBoot), images.dcsBoot)
    && HasFile(files, Own(DcsInt), images.dcsInt)
    && HasFile(files, Own(DcsCfg), images.dcsCfg)
    && HasFile(files, Own(LegacySpeaker), images.legacySpeaker)
    && HasFile(files, Own(DcsInfo), images.dcsInfo)
  }

  lemma SavedStill(files: Files, files': Files, images: Images)
    requires ChangedOnly(files, files', {Own(PlatformInfo)}) && AllSaved(files, images)
    ensures AllSaved(files', images)
  {
    StillAt(files, files', {Own(PlatformInfo)}, ImageFiles());
  }

  lemma StillAt(files: Files, files': Files, ps: set<Path>, qs: set<Path>)
    requires ChangedOnly(files, files', ps) && ps !! qs
    ensures forall q :: q in qs ==> SameAt(files, files', q)
  {
  }

  lemma BackupsSame(files: Files, files': Files)
    requires ChangedOnly(files, files', ImageFiles() + {Own(PlatformInfo)} + LoaderFiles())
    ensures SameAt(files, files', MsBackup) && SameAt(files, files', SystemBackup)
  {
    StillAt(files, files', ImageFiles() + {Own(PlatformInfo)} + LoaderFiles(), {MsBackup, SystemBackup});
  }

  /** Placing the loaders keeps the images and the platform information. */
  lemma ImagesStill(files: Files, files': Files, images: Images)
    requires ChangedOnly(files, files', LoaderFiles()) && AllSaved(files, images)
    ensures AllSaved(files', images) && SameAt(files, files', Own(PlatformInfo))
  {
    StillAt(files, files', LoaderFiles(), ImageFiles() + {Own(PlatformInfo)});
  }

  /** A fallback loader that is Microsoft's or the program's own has been replaced, and
      Microsoft's is kept as a backup. */
  ghost predicate FallbackReplaced(files: Files, files': Files, dcsBoot: string) {
    && (EfiLoader in files' <==> EfiLoader in files)
    && (EfiLoader in files ==>
          var c := files[EfiLoader];
          && HasFile(files', EfiLoader,
                     if (|c| > 32768 && HasPattern(c, "bootmgfw.pdb")) || (|c| <= 32768 && HasPattern(c, Wide("VeraCrypt")))
                     then dcsBoot else c)
          && (|c| > 32768 && HasPattern(c, "bootmgfw.pdb") ==> HasFile(files', EfiBackup, c)))
  }

  /** What becomes of the fallback loader. */
  lemma FallbackIs(files: Files, files': Files, dcsBoot: string)
    requires Installed(files, files', dcsBoot)
    ensures FallbackReplaced(files, files', dcsBoot)
  {
    hide HasPattern, Wide;
  }

  /** The program's own loaders. */
  datatype Images = Images(dcsBoot: string, dcsInt: string, dcsCfg: string, legacySpeaker: string, dcsInfo: string)

  ghost predicate IsMsAt(files: Files, p: Path) { p in files && |files[p]| > SMALL && Ms(files[p]) }

  ghost predicate IsInstalledAt(files: Files, p: Path) {
    p in files && |files[p]| <= SMALL && HasPattern(files[p], Wide(APP_NAME))
  }

  /** Both backups hold the Windows loader, which is in place. */
  ghost predicate BackedUp(files: Files, files': Files) {
    && MsLoader in files' && Ms(files'[MsLoader])
    && MsBackup in files' && files'[MsBackup] == files'[MsLoader]
    && SystemBackup in files' && files'[SystemBackup] == files'[MsLoader]
    && forall p: Path :: p != MsLoader && p != MsBackup && p != SystemBackup ==>
         (p in files' <==> p in files) && (p in files ==> files'[p] == files[p])
  }

  /** After the fallback loader has been replaced. */
  ghost function Replaced(files: Files, dcsBoot: string): Files {
    if IsMsAt(files, EfiLoader) then Renamed(files, EfiLoader, EfiBackup)[EfiLoader := dcsBoot]
    else if IsInstalledAt(files, EfiLoader) then files[EfiLoader := dcsBoot]
    else files
  }

  /** What a first installation leaves of the loaders and their backups. */
  ghost predicate Installed(files: Files, files': Files, dcsBoot: string) {
    var replaced := Replaced(files, dcsBoot);
    && MsLoader in files' && files'[MsLoader] == dcsBoot
    && SameAt(replaced, files', EfiLoader)
    && BackupMoved(replaced, files')
  }

  /** The loaders before and after backing up, installing and restoring. */
  lemma ComesBack(files: Files, backed: Files, installed: Files, restored: Files, dcsBoot: string, r: Outcome)
    requires IsMsAt(files, MsLoader) && Windows(files[MsLoader]) && EfiBackup !in files && OldEfiBackup !in files
    requires backed == files[MsBackup := files[MsLoader]][SystemBackup := files[MsLoader]]
    requires Installed(backed, installed, dcsBoot) && SameAt(backed, installed, MsBackup) && VeraCrypt(dcsBoot)
    requires MsBackup in installed && Restored(installed, restored, r)
    ensures r.Success? && SameAt(files, restored, MsLoader)
    ensures SameAt(files, restored, EfiLoader) <==> !IsVeraCryptAt(files, EfiLoader)
    ensures IsVeraCryptAt(files, EfiLoader) ==> EfiLoader in restored && restored[EfiLoader] == files[MsLoader]
  {
    if IsVeraCryptAt(files, EfiLoader) { Overwritten(files, backed, installed, restored, dcsBoot, r); }
  }

  lemma StillReadable(files: Files, backed: Files, installed: Files, dcsBoot: string)
    requires Readable(files) && MsLoader in files && EfiBackup !in files && OldEfiBackup !in files
    requires backed == files[MsBackup := files[MsLoader]][SystemBackup := files[MsLoader]]
    requires Installed(backed, installed, dcsBoot) && SameAt(backed, installed, MsBackup) && |dcsBoot| <= SMALL
    ensures Readable(installed) && MsBackup in installed
  {
  }

  lemma Overwritten(files: Files, backed: Files, installed: Files, restored: Files, dcsBoot: string, r: Outcome)
    requires IsMsAt(files, MsLoader) && Windows(files[MsLoader]) && EfiBackup !in files && OldEfiBackup !in files
    requires backed == files[MsBackup := files[MsLoader]][SystemBackup := files[MsLoader]]
    requires Installed(backed, installed, dcsBoot) && SameAt(backed, installed, MsBackup) && VeraCrypt(dcsBoot)
    requires MsBackup in installed && Restored(installed, restored, r) && IsVeraCryptAt(files, EfiLoader)
    ensures EfiLoader in restored && restored[EfiLoader] == files[MsLoader] != files[EfiLoader]
  {
    hide HasPattern, Wide;
  }

  /** A fallback loader that mentions VeraCrypt, such as this one, does not come back: the
      Windows loader takes its place. */
  lemma MentionsVeraCrypt(loader: string, installed: Files, restored: Files, dcsBoot: string, r: Outcome)
    requires |loader| > SMALL && Windows(loader) && VeraCrypt(dcsBoot)
    requires var backed := TwoLoaders(loader)[MsBackup := loader][SystemBackup := loader];
             Installed(backed, installed, dcsBoot) && SameAt(backed, installed, MsBackup)
    requires MsBackup in installed && Restored(installed, restored, r)
    ensures EfiLoader in restored && restored[EfiLoader] == loader != "Not VeraCrypt"
  {
    Mentioned();
    var files := TwoLoaders(loader);
    ComesBack(files, files[MsBackup := loader][SystemBackup := loader], installed, restored, dcsBoot, r);
  }

  function TwoLoaders(loader: string): Files { map[MsLoader := loader, EfiLoader := "Not VeraCrypt"] }

  lemma Mentioned()
    ensures VeraCrypt("Not VeraCrypt")
  {
    assert "Not VeraCrypt"[4..4 + 9] == APP_NAME;
    assert At("Not VeraCrypt", APP_NAME, 4);
  }

  lemma InstalledFrom(files: Files, mid: Files, files': Files, dcsBoot: string, props: string)
    requires ChangedOnly(files, mid, ImageFiles() + {Own(PlatformInfo)})
    requires Installed(mid, files', dcsBoot) && Tidied(mid, files', props)
    ensures Installed(files, files', dcsBoot) && Tidied(files, files', props)
  {
    hide HasPattern, Wide;
    StillAt(files, mid, ImageFiles() + {Own(PlatformInfo)},
            {EfiLoader, EfiBackup, OldEfiBackup, Own(DcsBootConfig), Own(RootDcsBootConfig)});
  }

  /** A backup under its old name counts if there is none under the new one. */
  ghost predicate BackupMoved(files: Files, files': Files) {
    && (EfiBackup in files' <==> EfiBackup in files || OldEfiBackup in files)
    && (EfiBackup in files' ==> files'[EfiBackup] == if EfiBackup in files then files[EfiBackup] else files[OldEfiBackup])
  }

  /** What restoring gives when a backup of the Windows loader exists and nothing fails. */
  ghost predicate Restored(files: Files, files': Files, r: Outcome)
    requires MsBackup in files
  {
    var ms := if IsWindowsAt(files, MsLoader) then files[MsLoader] else files[MsBackup];
    var fallback := Fallback(files);
    && (r.Success? <==> Windows(ms) || (fallback.Some? && Windows(fallback.value)))
    && (r.Success? ==>
          && MsLoader in files' && files'[MsLoader] == (if Windows(ms) then ms else fallback.value)
          && (EfiLoader in files' <==> fallback.Some?)
          && (fallback.Some? ==> files'[EfiLoader] == if VeraCrypt(fallback.value) then files'[MsLoader] else fallback.value))
  }

  /** Only VeraCrypt's own files may have changed. */
  ghost predicate OthersSame(files: Files, files': Files) {
    forall p: Path :: !p.Own? ==> (p in files' <==> p in files) && (p in files ==> files'[p] == files[p])
  }

  lemma AllNamed(names: seq<OwnFile>)
    requires RootDcsBoot in names && RootDcsInt in names && RootDcsCfg in names && RootLegacySpeaker in names
    requires RootDcsBootConfig in names && RootDcsProp in names && DcsBoot in names && DcsInt in names && DcsCfg in names
    requires LegacySpeaker in names && DcsBml in names && DcsBootConfig in names && DcsInfo in names
    requires PlatformInfo in names && DcsProp in names
    ensures forall f: OwnFile :: f in names
  {
    forall f: OwnFile ensures f in names {
      match f case DcsBoot => case DcsInt => case DcsCfg => case LegacySpeaker => case DcsInfo => case DcsBml =>
      case PlatformInfo => case DcsProp => case DcsBootConfig => case RootDcsBoot => case RootDcsInt =>
      case RootDcsCfg => case RootLegacySpeaker => case RootDcsBootConfig => case RootDcsProp =>
    }
  }
}

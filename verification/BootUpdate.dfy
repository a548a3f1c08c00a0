/** InstallBootLoader over an existing installation (preserveUserConfig) on a GPT disk, in
    BootEncryption.cpp: a Windows loader that has been put back, by an update of Windows
    say, must be moved away before VeraCrypt's takes its place again. */
module BootUpdate {
  import opened BootOrder
  import opened BootFiles
  import opened BootLoader

  /** `loader` is somewhere where restoring finds it. */
  ghost predicate Kept(files: Files, loader: string) {
    || (MsLoader in files && files[MsLoader] == loader)
    || (MsBackup in files && files[MsBackup] == loader)
  }

  ghost predicate AtBackup(files: Files, loader: string) { MsBackup in files && files[MsBackup] == loader }

  /** Move a Windows loader that is in place to the backup, or else look for one where the
      configuration says (lines 4074-4153). `movable` tells if the disk lets it be moved. */
  method MoveWindowsLoader(disk: Partition, postOOBE: bool, config: string -> Option<Path>, movable: bool)
    returns (r: Outcome, modified: bool, moved: bool)
    modifies disk`files
    ensures IsMsAt(old(disk.files), MsLoader) ==> r.Success? && !modified
    ensures IsMsAt(old(disk.files), MsLoader) && moved ==>
              MsLoader !in disk.files && AtBackup(disk.files, old(disk.files)[MsLoader])
    ensures IsMsAt(old(disk.files), MsLoader) && !moved ==> disk.files == old(disk.files)
    ensures IsMsAt(old(disk.files), MsLoader) ==> (moved <==> movable || !disk.faulty)
    ensures !IsMsAt(old(disk.files), MsLoader) ==> modified && !moved
    ensures MsBackup in old(disk.files) && !IsMsAt(old(disk.files), MsLoader) ==> r.Success? && disk.files == old(disk.files)
    ensures r.Failure? ==> disk.files == old(disk.files) && !postOOBE
    ensures MsBackup in old(disk.files) || IsMsAt(old(disk.files), MsLoader) ==>
              ChangedOnly(old(disk.files), disk.files, {MsLoader, MsBackup})
    // without a Windows loader and a backup, the configuration must name one, which becomes the backup
    ensures MsBackup !in old(disk.files) && !IsMsAt(old(disk.files), MsLoader) ==>
              (r.Success? <==> postOOBE || NamesWindows(old(disk.files), config))
              && (NamesWindows(old(disk.files), config) && !disk.faulty ==>
                    HasFile(disk.files, MsBackup, old(disk.files)[config(old(disk.files)[Own(DcsProp)]).value]))
  {
    r, modified, moved := Success, true, false;
    if MsLoader in disk.files && |disk.files[MsLoader]| > SMALL {
      var ms := BufferHasPattern(disk.files[MsLoader], MS_STRING);
      modified := !ms;
    }
    if !modified {
      moved := disk.RenameIf(MsLoader, MsBackup, true, movable);
    } else if MsBackup !in disk.files {
      var found := FindWindowsLoader(disk, config);
      if !found && !postOOBE { return Failure, modified, moved; }
    }
  }

  /** The configuration names a file that is the Windows loader, by its contents. */
  ghost predicate NamesWindows(files: Files, config: string -> Option<Path>) {
    && Own(DcsProp) in files && config(files[Own(DcsProp)]).Some?
    && var p := config(files[Own(DcsProp)]).value; p != MsLoader && p in files && HasPattern(files[p], "bootmgfw.pdb")
  }

  /** Move the loader that the configuration names to the backup (lines 4123-4149). */
  method FindWindowsLoader(disk: Partition, config: string -> Option<Path>) returns (found: bool)
    modifies disk`files
    ensures found <==> NamesWindows(old(disk.files), config)
    ensures !found ==> disk.files == old(disk.files)
    ensures found && !disk.faulty ==>
              disk.files == Renamed(old(disk.files), config(old(disk.files)[Own(DcsProp)]).value, MsBackup)
  {
    found := false;
    if Own(DcsProp) in disk.files {
      var named := config(disk.files[Own(DcsProp)]);
      if named.Some? && named.value != MsLoader && named.value in disk.files {
        found := BufferHasPattern(disk.files[named.value], MS_STRING);
        if found { var _ := disk.RenameFile(named.value, MsBackup, true); }
      }
    }
  }

  function SnapshotFiles(): set<Path> {
    {Snapshot(DcsBoot), Snapshot(DcsInt), Snapshot(DcsCfg), Snapshot(LegacySpeaker), Snapshot(DcsInfo)}
  }

  /** An image that differs from the new one is kept, if none was kept before. */
  ghost predicate Snapped(files: Files, files': Files, image: OwnFile, data: string) {
    if Own(image) in files && files[Own(image)] != "" && files[Own(image)] != data && Snapshot(image) !in files
    then HasFile(files', Snapshot(image), files[Own(image)])
    else SameAt(files, files', Snapshot(image))
  }

  ghost predicate AllSnapped(files: Files, files': Files, images: Images) {
    && Snapped(files, files', DcsBoot, images.dcsBoot)
    && Snapped(files, files', DcsInt, images.dcsInt)
    && Snapped(files, files', DcsCfg, images.dcsCfg)
    && Snapped(files, files', LegacySpeaker, images.legacySpeaker)
    && Snapped(files, files', DcsInfo, images.dcsInfo)
  }

  /** BackupEfiBootLoaderImagesIfDifferent (lines 3071-3094) */
  method TakeSnapshots(disk: Partition, images: Images) returns (r: Outcome)
    modifies disk`files
    ensures ChangedOnly(old(disk.files), disk.files, SnapshotFiles())
    ensures r.Success? ==> AllSnapped(old(disk.files), disk.files, images)
  {
    hide ChangedAt, ChangedOnly, Snapped;
    ghost var f0 := disk.files;
    SnapshotsStart(f0);
    r := TakeSnapshot(disk, DcsBoot, images.dcsBoot);
    ghost var f1 := disk.files;
    SnapshotKeeps(f0, f0, f1, DcsBoot);
    if r.Failure? { return; }
    r := TakeSnapshot(disk, DcsInt, images.dcsInt);
    ghost var f2 := disk.files;
    SnapshotKeeps(f0, f1, f2, DcsInt);
    if r.Failure? { return; }
    r := TakeSnapshot(disk, DcsCfg, images.dcsCfg);
    ghost var f3 := disk.files;
    SnapshotKeeps(f0, f2, f3, DcsCfg);
    if r.Failure? { return; }
    r := TakeSnapshot(disk, LegacySpeaker, images.legacySpeaker);
    ghost var f4 := disk.files;
    SnapshotKeeps(f0, f3, f4, LegacySpeaker);
    if r.Failure? { return; }
    r := TakeSnapshot(disk, DcsInfo, images.dcsInfo);
    SnapshotKeeps(f0, f4, disk.files, DcsInfo);
    if r.Success? { SnapshotsTaken(f0, f1, f2, f3, f4, disk.files, images); }
  }

  lemma SnapshotsStart(files: Files)
    ensures ChangedOnly(files, files, SnapshotFiles())
  {
  }

  lemma SnapshotKeeps(files: Files, mid: Files, files': Files, image: OwnFile)
    requires ChangedOnly(files, mid, SnapshotFiles()) && ChangedAt(mid, files', Snapshot(image)) && Snapshot(image) in SnapshotFiles()
    ensures ChangedOnly(files, files', SnapshotFiles())
  {
    forall p: Path | p !in SnapshotFiles() ensures SameAt(files, files', p) { assert SameAt(files, mid, p); }
  }

  lemma SnapshotsTaken(f0: Files, f1: Files, f2: Files, f3: Files, f4: Files, f5: Files, images: Images)
    requires ChangedAt(f0, f1, Snapshot(DcsBoot)) && ChangedAt(f1, f2, Snapshot(DcsInt)) && ChangedAt(f2, f3, Snapshot(DcsCfg))
    requires ChangedAt(f3, f4, Snapshot(LegacySpeaker)) && ChangedAt(f4, f5, Snapshot(DcsInfo))
    requires Snapped(f0, f1, DcsBoot, images.dcsBoot) && Snapped(f1, f2, DcsInt, images.dcsInt)
    requires Snapped(f2, f3, DcsCfg, images.dcsCfg) && Snapped(f3, f4, LegacySpeaker, images.legacySpeaker)
    requires Snapped(f4, f5, DcsInfo, images.dcsInfo)
    ensures AllSnapped(f0, f5, images)
  {
    hide ChangedAt, Snapped;
    FirstSnapshots(f0, f1, f2, f3, f4, f5, images);
    LastSnapshots(f0, f1, f2, f3, f4, f5, images);
  }

  lemma FirstSnapshots(f0: Files, f1: Files, f2: Files, f3: Files, f4: Files, f5: Files, images: Images)
    requires ChangedAt(f0, f1, Snapshot(DcsBoot)) && ChangedAt(f1, f2, Snapshot(DcsInt)) && ChangedAt(f2, f3, Snapshot(DcsCfg))
    requires ChangedAt(f3, f4, Snapshot(LegacySpeaker)) && ChangedAt(f4, f5, Snapshot(DcsInfo))
    requires Snapped(f0, f1, DcsBoot, images.dcsBoot) && Snapped(f1, f2, DcsInt, images.dcsInt)
    ensures Snapped(f0, f5, DcsBoot, images.dcsBoot) && Snapped(f0, f5, DcsInt, images.dcsInt)
  {
    hide Snapped;
    SnappedBetween(f0, f0, f1, f5, DcsBoot, images.dcsBoot);
    SnappedBetween(f0, f1, f2, f5, DcsInt, images.dcsInt);
  }

  lemma LastSnapshots(f0: Files, f1: Files, f2: Files, f3: Files, f4: Files, f5: Files, images: Images)
    requires ChangedAt(f0, f1, Snapshot(DcsBoot)) && ChangedAt(f1, f2, Snapshot(DcsInt)) && ChangedAt(f2, f3, Snapshot(DcsCfg))
    requires ChangedAt(f3, f4, Snapshot(LegacySpeaker)) && ChangedAt(f4, f5, Snapshot(DcsInfo))
    requires Snapped(f2, f3, DcsCfg, images.dcsCfg) && Snapped(f3, f4, LegacySpeaker, images.legacySpeaker)
    requires Snapped(f4, f5, DcsInfo, images.dcsInfo)
    ensures Snapped(f0, f5, DcsCfg, images.dcsCfg) && Snapped(f0, f5, LegacySpeaker, images.legacySpeaker)
    ensures Snapped(f0, f5, DcsInfo, images.dcsInfo)
  {
    hide Snapped;
    SnappedBetween(f0, f2, f3, f5, DcsCfg, images.dcsCfg);
    SnappedBetween(f0, f3, f4, f5, LegacySpeaker, images.legacySpeaker);
    SnappedBetween(f0, f4, f5, f5, DcsInfo, images.dcsInfo);
  }

  lemma SnappedBetween(files: Files, mid: Files, mid': Files, files': Files, image: OwnFile, data: string)
    requires SameAt(files, mid, Own(image)) && SameAt(files, mid, Snapshot(image)) && SameAt(mid', files', Snapshot(image))
    requires Snapped(mid, mid', image, data)
    ensures Snapped(files, files', image, data)
  {
  }

  /** Keep the first image that differs from the new one. */
  method TakeSnapshot(disk: Partition, image: OwnFile, data: string) returns (r: Outcome)
    modifies disk`files
    ensures ChangedAt(old(disk.files), disk.files, Snapshot(image))
    ensures Snapshot(image) in old(disk.files) ==> disk.files == old(disk.files)
    ensures r.Success? ==> Snapped(old(disk.files), disk.files, image, data)
    ensures r.Success? && Snapshot(image) !in old(disk.files) && Own(image) in old(disk.files)
            && old(disk.files)[Own(image)] != "" && old(disk.files)[Own(image)] != data ==>
              disk.files == old(disk.files)[Snapshot(image) := old(disk.files)[Own(image)]]
  {
    if Own(image) !in disk.files || disk.files[Own(image)] == "" { return Success; }
    if |disk.files[Own(image)]| > MAX_SIZE { return Failure; }
    r := Success;
    if disk.files[Own(image)] != data && Snapshot(image) !in disk.files {
      r := disk.SaveFile(Snapshot(image), disk.files[Own(image)]);
    }
  }

  /** A fallback loader that is Microsoft's or VeraCrypt's has been replaced, any other is
      left alone. */
  ghost predicate FallbackFresh(files: Files, files': Files, loader: string) {
    && (EfiLoader in files' <==> EfiLoader in files)
    && (EfiLoader in files ==>
          var c := files[EfiLoader];
          files'[EfiLoader] == if (|c| > 32768 && HasPattern(c, "bootmgfw.pdb"))
                                  || HasPattern(c, Wide("VeraCrypt")) || HasPattern(c, "VeraCrypt")
                               then loader else c)
  }

  /** Put VeraCrypt's loader where the firmware looks for it before the larger refresh, or
      take the Windows loader back if that fails (lines 4163-4175). */
  method PlaceFirst(disk: Partition, moved: bool) returns (r: Outcome)
    requires Own(DcsBoot) in disk.files && MsLoader !in disk.files
    modifies disk`files
    ensures MsBackup in old(disk.files) ==>
              AtBackup(disk.files, old(disk.files)[MsBackup])
              || (moved && MsLoader in disk.files && disk.files[MsLoader] == old(disk.files)[MsBackup])
    ensures r.Success? ==> ChangedAt(old(disk.files), disk.files, MsLoader)
  {
    r := disk.CopyFile(Own(DcsBoot), MsLoader);
    if r.Failure? && moved { var _ := disk.RenameFile(MsBackup, MsLoader, true); }
  }

  /** Refresh the fallback loader (lines 4191-4217). */
  method RefreshFallback(disk: Partition) returns (r: Outcome)
    requires Own(DcsBoot) in disk.files
    modifies disk`files
    ensures ChangedOnly(old(disk.files), disk.files, {EfiLoader, EfiBackup})
    ensures r.Success? ==> FallbackFresh(old(disk.files), disk.files, old(disk.files)[Own(DcsBoot)])
    ensures r.Success? && !disk.faulty && EfiLoader in old(disk.files) && |old(disk.files)[EfiLoader]| > 32768
            && HasPattern(old(disk.files)[EfiLoader], "bootmgfw.pdb") ==>
              HasFile(disk.files, EfiBackup, old(disk.files)[EfiLoader])
  {
    hide HasPattern, Wide;
    r := Success;
    if EfiLoader in disk.files {
      var updated := false;
      if |disk.files[EfiLoader]| > SMALL {
        var ms := BufferHasPattern(disk.files[EfiLoader], MS_STRING);
        if ms {
          var _ := disk.RenameFile(EfiLoader, EfiBackup, true);
          r := disk.CopyFile(Own(DcsBoot), EfiLoader);
          if r.Failure? { return; }
          updated := true;
        }
      }
      if !updated {
        var own: bool;
        r, own := disk.IsVeraCryptBootLoader(EfiLoader);
        if r.Failure? || !own { return; }
        r := disk.CopyFile(Own(DcsBoot), EfiLoader);
      }
    }
  }

  /** The files that a refresh touches. */
  function RefreshFiles(): set<Path> { SnapshotFiles() + ImageFiles() + {MsLoader} + {EfiLoader, EfiBackup} }

  /** The images, what is kept of the old ones, and the loaders (lines 4177-4217). */
  method RefreshModules(boot: BootEncryption, images: Images, refresh: bool) returns (r: Outcome)
    modifies boot.disk`files
    ensures ChangedOnly(old(boot.disk.files), boot.disk.files, RefreshFiles())
    ensures r.Success? ==>
              if refresh then HasFile(boot.disk.files, MsLoader, images.dcsBoot)
              else SameAt(old(boot.disk.files), boot.disk.files, MsLoader)
    ensures r.Success? ==> AllSaved(boot.disk.files, images) && FallbackFresh(old(boot.disk.files), boot.disk.files, images.dcsBoot)
    ensures r.Success? ==> AllSnapped(old(boot.disk.files), boot.disk.files, images)
  {
    hide ChangedAt, ChangedOnly, AllSnapped, FallbackFresh, HasPattern, Wide;
    var disk := boot.disk;
    ghost var f0 := disk.files;
    r := TakeSnapshots(disk, images);
    ghost var f1 := disk.files;
    ChangedMore(f0, f1, SnapshotFiles(), RefreshFiles());
    if r.Failure? { return; }
    r := boot.SaveImages(images);
    ghost var f2 := disk.files;
    ChangedWithin(f0, f1, f2, ImageFiles(), RefreshFiles());
    if r.Failure? { return; }
    if refresh { r := disk.CopyFile(Own(DcsBoot), MsLoader); } else { ChangedNone(f2, MsLoader); }
    ghost var f3 := disk.files;
    ChangedOne(f2, f3, MsLoader);
    ChangedWithin(f0, f2, f3, {MsLoader}, RefreshFiles());
    if r.Failure? { return; }
    r := RefreshFallback(disk);
    ChangedWithin(f0, f3, disk.files, {EfiLoader, EfiBackup}, RefreshFiles());
    if r.Success? { ModulesRefreshed(f0, f1, f2, f3, disk.files, images, refresh); }
  }

  lemma ChangedNone(files: Files, p: Path)
    ensures ChangedAt(files, files, p)
  {
  }

  lemma ModulesRefreshed(f0: Files, f1: Files, f2: Files, f3: Files, f4: Files, images: Images, refresh: bool)
    requires ChangedOnly(f0, f1, SnapshotFiles()) && ChangedOnly(f1, f2, ImageFiles()) && ChangedOnly(f3, f4, {EfiLoader, EfiBackup})
    requires f3 == (if refresh then f2[MsLoader := images.dcsBoot] else f2) && AllSaved(f2, images)
    requires AllSnapped(f0, f1, images) && FallbackFresh(f3, f4, images.dcsBoot)
    ensures if refresh then HasFile(f4, MsLoader, images.dcsBoot) else SameAt(f0, f4, MsLoader)
    ensures AllSaved(f4, images) && FallbackFresh(f0, f4, images.dcsBoot) && AllSnapped(f0, f4, images)
  {
    hide ChangedOnly, HasPattern, Wide;
    StillAt(f0, f1, SnapshotFiles(), {EfiLoader, MsLoader});
    StillAt(f1, f2, ImageFiles(), {EfiLoader, MsLoader} + SnapshotFiles());
    StillAt(f3, f4, {EfiLoader, EfiBackup}, {MsLoader} + ImageFiles() + SnapshotFiles());
  }

  /** After an update of Windows (lines 4155-4219). */
  method Refresh(boot: BootEncryption, images: Images, modified: bool, missing: bool, moved: bool) returns (r: Outcome)
    requires Own(DcsBoot) in boot.disk.files
    requires moved ==> !modified && MsLoader !in boot.disk.files && MsBackup in boot.disk.files
    modifies boot.disk`files
    ensures MsBackup in old(boot.disk.files) ==>
              AtBackup(boot.disk.files, old(boot.disk.files)[MsBackup])
              || (moved && MsLoader in boot.disk.files && boot.disk.files[MsLoader] == old(boot.disk.files)[MsBackup])
    ensures r.Success? ==> SameAt(old(boot.disk.files), boot.disk.files, MsBackup)
    ensures r.Success? && !modified ==> MsLoader in boot.disk.files && boot.disk.files[MsLoader] == images.dcsBoot
    // a loader that is missing or VeraCrypt's is replaced too, and any other is left alone
    ensures r.Success? && modified ==>
              if missing || IsVeraCryptAt(old(boot.disk.files), MsLoader) then HasFile(boot.disk.files, MsLoader, images.dcsBoot)
              else SameAt(old(boot.disk.files), boot.disk.files, MsLoader)
    ensures r.Success? ==> AllSaved(boot.disk.files, images) && FallbackFresh(old(boot.disk.files), boot.disk.files, images.dcsBoot)
    ensures r.Success? ==> AllSnapped(old(boot.disk.files), boot.disk.files, images)
  {
    hide ChangedOnly, ChangedAt, AllSaved, AllSnapped, FallbackFresh, HasPattern, Wide;
    var disk := boot.disk;
    ghost var f0 := disk.files;
    ChangedNone(f0, MsLoader);
    var refresh := !modified || missing;
    if !refresh {
      r, refresh := disk.IsVeraCryptBootLoader(MsLoader);
      if r.Failure? { return; }
    }
    if refresh && MsLoader !in disk.files {
      r := PlaceFirst(disk, moved);
      if r.Failure? { return; }
    }
    ghost var f1 := disk.files;
    r := RefreshModules(boot, images, refresh);
    BackupStill(f0, f1, disk.files);
    if r.Success? { PlacedFirst(f0, f1, disk.files, images); }
  }

  lemma BackupStill(f0: Files, f1: Files, f2: Files)
    requires ChangedAt(f0, f1, MsLoader) && ChangedOnly(f1, f2, RefreshFiles())
    ensures SameAt(f0, f2, MsBackup)
  {
    StillAt(f1, f2, RefreshFiles(), {MsBackup});
  }

  lemma PlacedFirst(f0: Files, f1: Files, f2: Files, images: Images)
    requires ChangedAt(f0, f1, MsLoader) && FallbackFresh(f1, f2, images.dcsBoot) && AllSnapped(f1, f2, images)
    ensures FallbackFresh(f0, f2, images.dcsBoot) && AllSnapped(f0, f2, images)
  {
    hide Snapped, HasPattern, Wide;
    SnappedBetween(f0, f1, f2, f2, DcsBoot, images.dcsBoot);
    SnappedBetween(f0, f1, f2, f2, DcsInt, images.dcsInt);
    SnappedBetween(f0, f1, f2, f2, DcsCfg, images.dcsCfg);
    SnappedBetween(f0, f1, f2, f2, LegacySpeaker, images.legacySpeaker);
    SnappedBetween(f0, f1, f2, f2, DcsInfo, images.dcsInfo);
  }

  /** InstallBootLoader with preserveUserConfig (lines 4072-4279). Once a Windows loader has
      been moved to the backup it is never lost, whatever fails afterwards. But the update
      goes on if it could not be moved, and then it is overwritten: after a success it is
      kept exactly if the disk let it be moved, or its backup was already there. */
  method UpdateBootLoader(boot: BootEncryption, postOOBE: bool, config: string -> Option<Path>, images: Images, props: string,
                          load: string, windows: string -> bool, device: bool, setEntry: bool, forceFirst: bool, setNext: bool,
                          movable: bool)
    returns (r: Outcome, moved: bool)
    requires boot.Valid() && |boot.firmware.vars[Boot].order| + 1 < ROOM
    requires |images.dcsBoot| <= SMALL
    modifies boot.disk`files, boot.firmware`vars
    ensures boot.Valid()
    ensures moved <==> IsMsAt(old(boot.disk.files), MsLoader) && (movable || !boot.disk.faulty)
                       && (!postOOBE || (boot.firmware.privileged && boot.firmware.efi))
    ensures moved ==> Kept(boot.disk.files, old(boot.disk.files)[MsLoader])
    ensures IsMsAt(old(boot.disk.files), MsLoader) && r.Success? ==>
              (Kept(boot.disk.files, old(boot.disk.files)[MsLoader])
               <==> movable || !boot.disk.faulty || AtBackup(old(boot.disk.files), old(boot.disk.files)[MsLoader]))
    ensures IsMsAt(old(boot.disk.files), MsLoader) && r.Success? ==>
              MsLoader in boot.disk.files && boot.disk.files[MsLoader] == images.dcsBoot
    // a success leaves each image in its own file
    ensures r.Success? ==>
              && HasFile(boot.disk.files, Own(DcsBoot), images.dcsBoot)
              && HasFile(boot.disk.files, Own(DcsInt), images.dcsInt)
              && HasFile(boot.disk.files, Own(DcsCfg), images.dcsCfg)
              && HasFile(boot.disk.files, Own(LegacySpeaker), images.legacySpeaker)
              && HasFile(boot.disk.files, Own(DcsInfo), images.dcsInfo)
    // nothing fails and there is a loader to keep: the rest is done as in a first installation, or only refreshed
    ensures !postOOBE && boot.FirmwareSound(old(boot.firmware.vars)) && !boot.disk.faulty && KeepsOne(old(boot.disk.files)) ==>
              && r.Success? && HasFile(boot.disk.files, MsLoader, images.dcsBoot)
              && SameAt(old(boot.disk.files), boot.disk.files, Own(PlatformInfo))
              && Tidied(old(boot.disk.files), boot.disk.files, props)
              && FallbackReplaced(old(boot.disk.files), boot.disk.files, images.dcsBoot)
              && boot.firmware.vars[Boot] ==
                 Entered(old(boot.firmware.vars[Boot]), ENTRY, load, windows, device, setEntry, forceFirst, setNext)
    ensures postOOBE && r.Success? && KeepsOne(old(boot.disk.files)) && Own(DcsBoot) in old(boot.disk.files) ==>
              && FallbackFresh(old(boot.disk.files), boot.disk.files, images.dcsBoot)
              && AllSnapped(old(boot.disk.files), boot.disk.files, images)
              && (!boot.firmware.faulty ==>
                    boot.firmware.vars[Boot] ==
                    Entered(old(boot.firmware.vars[Boot]), ENTRY, load, windows, device, setEntry, forceFirst, setNext))
  {
    hide ChangedOnly, HasPattern, Wide, Entered, Tidied, FallbackReplaced, FallbackFresh, AllSnapped;
    var disk := boot.disk;
    ghost var f0 := disk.files;
    moved := false;
    var missing := MsLoader !in disk.files;
    if postOOBE {
      var answer := boot.firmware.SetStartExec(ENTRY, Boot, load, windows, device, setEntry, forceFirst, setNext);
      if answer.Thrown? { return Failure, moved; }
    }
    var modified: bool;
    r, modified, moved := MoveWindowsLoader(disk, postOOBE, config, movable);
    ghost var f1 := disk.files;
    if KeepsOne(f0) { StillAt(f0, f1, {MsLoader, MsBackup}, {Own(DcsBoot), Own(PlatformInfo)}); }
    if r.Failure? { return; }
    if postOOBE && Own(DcsBoot) in disk.files {
      r := Refresh(boot, images, modified, missing, moved);
      if r.Success? && KeepsOne(f0) { MovedFirst(f0, f1, disk.files, images); }
      return;
    }
    r := boot.InstallBootLoader(true, images, props, load, windows, device, setEntry, forceFirst, setNext);
    if boot.FirmwareSound(old(boot.firmware.vars)) && !disk.faulty && KeepsOne(f0) {
      if !postOOBE { MovedThen(f0, f1, disk.files, images.dcsBoot, props); }
    }
  }

  /** There is a Windows loader or a backup of one. */
  ghost predicate KeepsOne(files: Files) { MsBackup in files || IsMsAt(files, MsLoader) }

  lemma MovedFirst(f0: Files, f1: Files, f2: Files, images: Images)
    requires ChangedOnly(f0, f1, {MsLoader, MsBackup}) && FallbackFresh(f1, f2, images.dcsBoot) && AllSnapped(f1, f2, images)
    ensures FallbackFresh(f0, f2, images.dcsBoot) && AllSnapped(f0, f2, images)
  {
    hide ChangedOnly, Snapped, HasPattern, Wide;
    StillAt(f0, f1, {MsLoader, MsBackup}, {EfiLoader} + ImageFiles() + SnapshotFiles());
    SnappedBetween(f0, f1, f2, f2, DcsBoot, images.dcsBoot);
    SnappedBetween(f0, f1, f2, f2, DcsInt, images.dcsInt);
    SnappedBetween(f0, f1, f2, f2, DcsCfg, images.dcsCfg);
    SnappedBetween(f0, f1, f2, f2, LegacySpeaker, images.legacySpeaker);
    SnappedBetween(f0, f1, f2, f2, DcsInfo, images.dcsInfo);
  }

  lemma MovedThen(f0: Files, f1: Files, f2: Files, dcsBoot: string, props: string)
    requires ChangedOnly(f0, f1, {MsLoader, MsBackup}) && Tidied(f1, f2, props) && Installed(f1, f2, dcsBoot)
    ensures Tidied(f0, f2, props) && FallbackReplaced(f0, f2, dcsBoot)
  {
    hide ChangedOnly, HasPattern, Wide;
    StillAt(f0, f1, {MsLoader, MsBackup}, {EfiLoader, Own(DcsBootConfig), Own(RootDcsBootConfig)});
    FallbackIs(f1, f2, dcsBoot);
  }
}

/** Window, table and chain operations of a mounted FAT volume: wiinandfuse/geckonand/ff.c.
    Disk reads and writes succeed. */
module FatFs {
  import opened FatTable
  import opened FatChains
  import opened FatVolume

  class Volume {
    const g: Layout
    const sectors: nat
    var disk: Disk
    var winsect: nat
    var wflag: bool
    const win: array<byte>
    var fsi_flag: bool
    var last_clust: nat
    var free_clust: nat

    ghost predicate Valid()
      reads this`disk, this`winsect, this`wflag, win
    {
      && win.Length == SS && |disk| == sectors && Sane(g, sectors)
      && winsect < sectors && !InCopies(g, winsect)
      && (winsect == 0 ==> !wflag) && (wflag ==> winsect >= g.fatbase)
      && (!wflag && winsect != 0 ==> win[..] == disk[winsect])
    }

    /** The disk as it will be once the window is written back. */
    function Logical(): (L: Disk)
      requires Valid()
      reads this`disk, this`winsect, this`wflag, win
      ensures |L| == sectors
    {
      if wflag then disk[winsect := win[..]] else disk
    }

    /** The table that the volume stands for. */
    function Fat(): (F: seq<nat>)
      requires Valid()
      reads this`disk, this`winsect, this`wflag, win
      ensures |F| == g.max_clust
    {
      FatOf(g, Logical())
    }

    /** All copies of the table agree, except where a changed table sector is still in the window. */
    ghost predicate Mirrored()
      requires Valid()
      reads this`disk, this`winsect, this`wflag, win
    {
      CopiesOK(g, disk, if wflag then winsect else -1)
    }

    constructor (g: Layout, disk: Disk, last_clust: nat, free_clust: nat)
      requires Sane(g, |disk|)
      ensures Valid() && this.g == g && Logical() == disk && this.disk == disk && winsect == 0 && fresh(win)
      ensures this.last_clust == last_clust && this.free_clust == free_clust
    {
      hide Sane, FatOf, InCopies;
      ReservedRoom(g, |disk|);
      this.g, this.sectors, this.disk := g, |disk|, disk;
      winsect, wflag, win := 0, false, new byte[SS](_ => 0);
      fsi_flag, this.last_clust, this.free_clust := false, last_clust, free_clust;
    }

    /** Writes the window to sector winsect, and to the copies of that sector if it is in the table. */
    method WriteBack()
      requires Valid() && wflag
      modifies this`disk, this`wflag
      ensures Valid() && !wflag && Kept(g, old(Logical()), disk)
      ensures InFat(g, winsect) ==> forall k: nat {:trigger CopyOK(g, disk, winsect, k, -1)} :: k < g.n_fats ==>
        CopyOK(g, disk, winsect, k, -1)
      ensures old(Mirrored()) ==> Mirrored()
    {
      hide CopyOK, Sane, CopiesOK, FatOf, InCopies, Copies;
      ghost var D := disk;
      DataRoom(g, sectors);
      var wsect := winsect;
      disk := disk[wsect := win[..]];
      wflag := false;
      if wsect < g.fatbase + g.sects_fat {
        CopyRoom(g, sectors, wsect);
        assert disk == Copies(D, winsect, g.sects_fat, win[..], 0) by { FirstCopy(D, winsect, g.sects_fat, win[..]); }
        var nf := g.n_fats;
        while nf >= 2
          invariant 1 <= nf <= g.n_fats && !wflag
          invariant wsect == winsect + (g.n_fats - nf) * g.sects_fat
          invariant wsect < |D| && disk == Copies(D, winsect, g.sects_fat, win[..], g.n_fats - nf)
        {
          NextCopy(g, sectors, D, winsect, win[..], nf);
          wsect := wsect + g.sects_fat;
          disk := disk[wsect := win[..]];
          nf := nf - 1;
        }
        TableWritten(g, D, winsect, win[..], disk);
      } else {
        OtherWritten(g, D, winsect, win[..]);
      }
    }

    /** disk_read of one sector into the window. */
    method ReadSector(s: nat)
      requires win.Length == SS && s < |disk|
      modifies win
      ensures win[..] == disk[s]
    {
      for i := 0 to SS
        invariant win[..i] == disk[s][..i]
      {
        win[i] := disk[s][i];
      }
    }

    /** move_window */
    method MoveWindow(sector: nat)
      requires Valid() && sector < sectors && !InCopies(g, sector)
      modifies this`disk, this`winsect, this`wflag, win
      ensures Valid() && Kept(g, old(Logical()), Logical())
      ensures sector != 0 ==> winsect == sector && win[..] == Logical()[sector]
      ensures sector == 0 || sector == old(winsect) ==> winsect == old(winsect) && win[..] == old(win[..])
      ensures sector == old(winsect) ==> wflag == old(wflag) && disk == old(disk)
      ensures sector != old(winsect) ==> !wflag
      ensures sector != old(winsect) && old(wflag) && InFat(g, old(winsect)) ==>
                forall k: nat {:trigger CopyOK(g, disk, old(winsect), k, -1)} :: k < g.n_fats ==>
                    CopyOK(g, disk, old(winsect), k, -1)
      ensures old(Mirrored()) ==> Mirrored()
    {
      hide CopyOK, CopiesOK, Sane, FatOf, InCopies, InFat;
      if winsect != sector {
        if wflag {
          WriteBack();
        }
        if sector != 0 {
          ReadSector(sector);
          winsect := sector;
        }
      }
    }

    method Get12(clst: nat) returns (r: nat)
      requires Valid() && g.fs_type == Fat12 && 2 <= clst < g.max_clust
      modifies this`disk, this`winsect, this`wflag, win
      ensures Valid() && Kept(g, old(Logical()), Logical()) && r == old(Fat())[clst] && InFat(g, winsect)
      ensures old(Mirrored()) ==> Mirrored()
    {
      hide CopiesOK, Sane, FatOf, InCopies, InFat, Entry, At, Offset;
      ghost var L := Logical();
      Entry12Places(g, L, clst);
      var bc := clst % 0x1_0000 * 3 / 2;
      MoveWindow(g.fatbase + bc / SS);
      ghost var M := Logical();
      WindowByte(L, M, g.fatbase, bc);
      var wc: int := win[bc % SS];
      ghost var b0 := win[bc % SS];
      bc := bc + 1;
      MoveWindow(g.fatbase + bc / SS);
      WindowByte(M, Logical(), g.fatbase, bc);
      var b1: int := win[bc % SS];
      wc := wc + 0x100 * b1;
      Read12(g, L, Logical(), clst, b0, b1);
      return if clst % 2 == 1 then wc / 0x10 else wc % 0x1000;
    }

    /** A byte of the table, once its sector is in the window. */
    lemma WindowByte(L: Disk, M: Disk, base: nat, i: nat)
      requires win.Length == SS && Kept(g, L, M) && base == g.fatbase && base + i / SS < |M|
        && !InCopies(g, base + i / SS)
      requires win[..] == M[base + i / SS]
      ensures win[i % SS] == At(M, base, i) == At(L, base, i)
    {
      KeptAt(g, L, M, i);
    }

    method Get16(clst: nat) returns (r: nat)
      requires Valid() && g.fs_type == Fat16 && 2 <= clst < g.max_clust
      modifies this`disk, this`winsect, this`wflag, win
      ensures Valid() && Kept(g, old(Logical()), Logical()) && r == old(Fat())[clst] && InFat(g, winsect)
      ensures old(Mirrored()) ==> Mirrored()
    {
      hide CopiesOK, Sane, FatOf, InCopies, InFat, Entry, At, Offset;
      ghost var L := Logical();
      Read16(g, L, clst);
      MoveWindow(g.fatbase + clst / (SS / 2));
      return WindowWord(clst % 0x1_0000 * 2 % SS);
    }

    method Get32(clst: nat) returns (r: nat)
      requires Valid() && g.fs_type == Fat32 && 2 <= clst < g.max_clust
      modifies this`disk, this`winsect, this`wflag, win
      ensures Valid() && Kept(g, old(Logical()), Logical()) && r == old(Fat())[clst] && InFat(g, winsect)
      ensures old(Mirrored()) ==> Mirrored()
    {
      hide CopiesOK, Sane, FatOf, InCopies, InFat, Entry, At, Offset;
      ghost var L := Logical();
      Read32(g, L, clst);
      MoveWindow(g.fatbase + clst / (SS / 4));
      var j := clst % 0x1_0000 * 4 % SS;
      return (WindowWord(j) + 0x1_0000 * WindowWord(j + 2)) % 0x1000_0000;
    }

    /** LD_WORD from the window. */
    function WindowWord(j: nat): (w: nat)
      requires win.Length == SS && j + 2 <= SS
      reads win
      ensures w == LoadWord(win[..], j)
    {
      var b0: int, b1: int := win[j], win[j + 1];
      b0 + 0x100 * b1
    }

    /** get_cluster */
    method GetCluster(clst: nat) returns (r: nat)
      requires Valid()
      modifies this`disk, this`winsect, this`wflag, win
      ensures Valid() && Kept(g, old(Logical()), Logical()) && Fat() == old(Fat())
      ensures r == if IsCluster(Fat(), clst) then Fat()[clst] else 1
      ensures winsect == old(winsect) || InFat(g, winsect)
      ensures old(Mirrored()) ==> Mirrored()
    {
      hide CopiesOK, Sane, FatOf, InCopies, InFat, Entry, At, Offset;
      if clst < 2 || clst >= g.max_clust {
        return 1;
      }
      ghost var L := Logical();
      match g.fs_type {
        case Fat12 => r := Get12(clst);
        case Fat16 => r := Get16(clst);
        case Fat32 => r := Get32(clst);
      }
      FatKept(g, L, Logical());
    }

    /** A byte written into the window. */
    method StoreByte(ghost i: nat, j: nat, v: byte)
      requires Valid() && winsect == g.fatbase + i / SS && j == i % SS && winsect > 0 && InFat(g, winsect)
        && win[..] == Logical()[winsect]
      modifies win, this`wflag
      ensures Valid() && wflag && Logical() == SetAt(old(Logical()), g.fatbase, i, v)
      ensures old(Mirrored()) ==> Mirrored()
    {
      hide CopiesOK, Sane, FatOf, InCopies;
      if !wflag && Mirrored() { CopiesExcept(g, disk, winsect); }
      win[j] := v;
      wflag := true;
    }

    method Put12(clst: nat, val: nat)
      requires Valid() && g.fs_type == Fat12 && 2 <= clst < g.max_clust
      modifies this`disk, this`winsect, this`wflag, win
      ensures Valid() && DataKept(g, old(Logical()), Logical()) && InFat(g, winsect)
      ensures Fat() == old(Fat())[clst := Stored(Fat12, val)]
      ensures old(Mirrored()) ==> Mirrored()
    {
      hide CopiesOK, Sane, FatOf, InCopies, InFat, Entry, At, Offset, SetAt, Low12, High12, DataKept, Stored;
      ghost var L := Logical();
      Entry12Places(g, L, clst);
      var odd, bc := clst % 2 == 1, clst % 0x1_0000 * 3 / 2;
      MoveWindow(g.fatbase + bc / SS);
      ghost var M1 := Logical();
      WindowByte(L, M1, g.fatbase, bc);
      StoreByte(bc, bc % SS, Low12(odd, win[bc % SS], val));
      ghost var M2 := Logical();
      bc := bc + 1;
      MoveWindow(g.fatbase + bc / SS);
      ghost var M3 := Logical();
      WindowByte(M2, M3, g.fatbase, bc);
      StoreByte(bc, bc % SS, High12(odd, win[bc % SS], val));
      Write12(g, L, clst, val, M1, M2, M3, Logical());
    }

    /** ST_WORD or ST_DWORD into the window. */
    method StoreWide(j: nat, n: nat, v: nat)
      requires Valid() && winsect > 0 && InFat(g, winsect) && win[..] == Logical()[winsect] && (n == 2 || n == 4)
        && j + n <= SS
      modifies win, this`wflag
      ensures Valid() && wflag && Logical() == old(Logical())[winsect := Poked(old(win[..]), j, n, v)]
      ensures old(Mirrored()) ==> Mirrored()
    {
      hide CopiesOK, Sane, FatOf, InCopies;
      if !wflag && Mirrored() { CopiesExcept(g, disk, winsect); }
      win[j] := v % 0x100;
      win[j + 1] := v / 0x100 % 0x100;
      if n == 4 {
        win[j + 2] := v / 0x1_0000 % 0x100;
        win[j + 3] := v / 0x100_0000 % 0x100;
      }
      wflag := true;
    }

    method Put16(clst: nat, val: nat)
      requires Valid() && g.fs_type == Fat16 && 2 <= clst < g.max_clust
      modifies this`disk, this`winsect, this`wflag, win
      ensures Valid() && DataKept(g, old(Logical()), Logical()) && InFat(g, winsect)
      ensures Fat() == old(Fat())[clst := Stored(Fat16, val)]
      ensures old(Mirrored()) ==> Mirrored()
    {
      hide CopiesOK, Sane, FatOf, InCopies, InFat, DataKept, Stored, Poked;
      ghost var L := Logical();
      WidePlace(g, sectors, clst, 1);
      MoveWindow(g.fatbase + clst / (SS / 2));
      ghost var M := Logical();
      StoreWide(clst % 0x1_0000 * 2 % SS, 2, val);
      WriteWide(g, L, clst, val, M, Logical());
    }

    method Put32(clst: nat, val: nat)
      requires Valid() && g.fs_type == Fat32 && 2 <= clst < g.max_clust
      modifies this`disk, this`winsect, this`wflag, win
      ensures Valid() && DataKept(g, old(Logical()), Logical()) && InFat(g, winsect)
      ensures Fat() == old(Fat())[clst := Stored(Fat32, val)]
      ensures old(Mirrored()) ==> Mirrored()
    {
      hide CopiesOK, Sane, FatOf, InCopies, InFat, DataKept, Stored, Poked;
      ghost var L := Logical();
      WidePlace(g, sectors, clst, 3);
      MoveWindow(g.fatbase + clst / (SS / 4));
      ghost var M := Logical();
      StoreWide(clst % 0x1_0000 * 4 % SS, 4, val);
      WriteWide(g, L, clst, val, M, Logical());
    }

    /** put_cluster: false is FR_INT_ERR. */
    method PutCluster(clst: nat, val: nat) returns (ok: bool)
      requires Valid()
      modifies this`disk, this`winsect, this`wflag, win
      ensures Valid() && DataKept(g, old(Logical()), Logical()) && ok == IsCluster(old(Fat()), clst)
      ensures Fat() == if ok then old(Fat())[clst := Stored(g.fs_type, val)] else old(Fat())
      ensures winsect == old(winsect) || InFat(g, winsect)
      ensures old(Mirrored()) ==> Mirrored()
    {
      hide CopiesOK, Sane, FatOf, InCopies, InFat, DataKept, Stored;
      if clst < 2 || clst >= g.max_clust {
        DataSame(Logical());
        return false;
      }
      match g.fs_type {
        case Fat12 => Put12(clst, val);
        case Fat16 => Put16(clst, val);
        case Fat32 => Put32(clst, val);
      }
      return true;
    }

    lemma DataSame(L: Disk)
      ensures DataKept(g, L, L)
    {
    }

    // ---------- cluster chains ----------

    /** If the number of free clusters is known, it is right. */
    ghost predicate Counted()
      requires Valid()
      reads this`disk, this`winsect, this`wflag, win, this`free_clust
    {
      free_clust == UNKNOWN || free_clust + Allocated(Fat()) == g.max_clust - 2
    }

    /** remove_chain: false is FR_INT_ERR. */
    method RemoveChain(clst0: nat) returns (ok: bool)
      requires Valid()
      modifies this`disk, this`winsect, this`wflag, win, this`free_clust, this`fsi_flag
      ensures Valid() && DataKept(g, old(Logical()), Logical())
      ensures Fat() == Zeroed(old(Fat()), Trail(old(Fat()), clst0))
      ensures ok == (IsCluster(old(Fat()), clst0) && !Broken(old(Fat()), clst0))
      ensures old(Counted()) ==> Counted() && (free_clust == UNKNOWN) == (old(free_clust) == UNKNOWN)
      ensures old(Counted()) && free_clust != UNKNOWN && Fat() != old(Fat()) ==> fsi_flag
      ensures winsect == old(winsect) || InFat(g, winsect)
      ensures old(Mirrored()) ==> Mirrored()
      ensures old(Forest(Fat())) && IsHead(old(Fat()), clst0) ==> ok && Forest(Fat())
    {
      hide Sane, CopiesOK, FatOf, InFat, DataKept, Zeroed, Trail, Broken, Forest, IsHead, Allocated, Stored;
      ghost var F0, L0 := Fat(), Logical();
      if Forest(F0) && IsHead(F0, clst0) { RemoveHead(F0, clst0); }
      DataSame(L0);
      if clst0 < 2 || clst0 >= g.max_clust {
        TrailEnd(F0, clst0);
        return false;
      }
      ok := true;
      var clst := clst0;
      while clst < g.max_clust
        invariant Valid() && DataKept(g, L0, Logical()) && clst >= 2 && ok
        invariant Zeroed(F0, Trail(F0, clst0)) == Zeroed(Fat(), Trail(Fat(), clst))
        invariant Broken(F0, clst0) == Broken(Fat(), clst)
        invariant old(Counted()) ==> Counted() && (free_clust == UNKNOWN) == (old(free_clust) == UNKNOWN)
        invariant old(Counted()) && free_clust != UNKNOWN && Fat() != F0 ==> fsi_flag
        invariant winsect == old(winsect) || InFat(g, winsect)
        invariant old(Mirrored()) ==> Mirrored()
        decreases Allocated(Fat())
      {
        var nxt := GetNext(clst, L0);
        if nxt == 0 || nxt == 1 {
          ok := nxt == 0;
          TrailEnd(Fat(), clst);
          return;
        }
        TrailStep(Fat(), clst);
        FreeOne(clst, L0);
        clst := nxt;
      }
      TrailEnd(Fat(), clst);
    }

    lemma RemoveHead(F: seq<nat>, c: nat)
      requires Forest(F) && IsHead(F, c)
      ensures Forest(Zeroed(F, Trail(F, c))) && !Broken(F, c) && IsCluster(F, c)
    {
      hide Forest, Zeroed, Trail, Broken;
      RemoveKeepsForest(F, c);
      ChainNotBroken(F, Trail(F, c));
    }

    /** get_cluster during a longer operation that started on the disk L0. */
    method GetNext(clst: nat, ghost L0: Disk) returns (r: nat)
      requires Valid() && DataKept(g, L0, Logical())
      modifies this`disk, this`winsect, this`wflag, win
      ensures Valid() && DataKept(g, L0, Logical()) && Fat() == old(Fat())
      ensures r == if IsCluster(Fat(), clst) then Fat()[clst] else 1
      ensures winsect == old(winsect) || InFat(g, winsect)
      ensures old(Mirrored()) ==> Mirrored()
      ensures old(Counted()) ==> Counted()
    {
      hide Sane, CopiesOK, FatOf, InFat, Mirrored;
      r := GetCluster(clst);
    }

    /** Marks a cluster as free, and counts it. */
    method FreeOne(clst: nat, ghost L0: Disk)
      requires Valid() && DataKept(g, L0, Logical()) && IsCluster(Fat(), clst) && Fat()[clst] != 0
      modifies this`disk, this`winsect, this`wflag, win, this`free_clust, this`fsi_flag
      ensures Valid() && DataKept(g, L0, Logical()) && Fat() == old(Fat())[clst := 0]
      ensures fsi_flag == (old(fsi_flag) || old(free_clust) != UNKNOWN)
      ensures old(Counted()) ==> Counted() && (free_clust == UNKNOWN) == (old(free_clust) == UNKNOWN)
      ensures winsect == old(winsect) || InFat(g, winsect)
      ensures old(Mirrored()) ==> Mirrored()
    {
      hide Sane, CopiesOK, FatOf, InFat, Mirrored, Stored, Allocated, Kept, DataKept;
      FreeCount(Fat(), clst);
      EndMark(g, sectors, 0);
      ghost var L1 := Logical();
      var ok := PutCluster(clst, 0);
      DataTwice(L0, L1, Logical());
      if free_clust != UNKNOWN {
        free_clust := (free_clust + 1) % 0x1_0000_0000;
        fsi_flag := true;
      }
    }

    lemma DataTwice(L: Disk, M: Disk, N: Disk)
      requires DataKept(g, L, M) && DataKept(g, M, N)
      ensures DataKept(g, L, N)
    {
    }

    /** The search of create_chain: 0 if every cluster is in use, 1 after an entry 1, or the next free cluster. */
    method FindFree(scl: nat, ghost L0: Disk) returns (ncl: nat)
      requires Valid() && DataKept(g, L0, Logical()) && 1 <= scl < g.max_clust
      modifies this`disk, this`winsect, this`wflag, win
      ensures Valid() && DataKept(g, L0, Logical()) && Fat() == old(Fat())
      ensures ncl == 0 ==> Full(Fat())
      ensures ncl == 1 ==> exists k :: IsCluster(Fat(), k) && Fat()[k] == 1
      ensures ncl >= 2 ==> IsCluster(Fat(), ncl) && Fat()[ncl] == 0 && NextFree(Fat(), scl, ncl)
      ensures winsect == old(winsect) || InFat(g, winsect)
      ensures old(Mirrored()) ==> Mirrored()
      ensures old(Counted()) ==> Counted()
    {
      hide Sane, CopiesOK, FatOf, InFat, DataKept, Scanned, NoneFree, Full, Mirrored, Counted;
      ghost var F := Fat();
      ncl := scl;
      ScanStart(F, scl);
      while true
        invariant Valid() && DataKept(g, L0, Logical()) && Fat() == F && (ncl == scl || IsCluster(F, ncl))
        invariant NoneFree(F, scl, ncl)
        invariant winsect == old(winsect) || InFat(g, winsect)
        invariant old(Mirrored()) ==> Mirrored()
        invariant old(Counted()) ==> Counted()
        decreases if ncl >= scl then 2 * g.max_clust - ncl else scl - ncl
      {
        ghost var n := ncl;
        ncl := ncl + 1;
        if ncl >= g.max_clust {
          ncl := 2;
          if ncl > scl {
            ScanFull(F, scl, n);
            return 0;
          }
        }
        var cs := GetNext(ncl, L0);
        if cs == 0 {
          FoundFree(F, scl, n, ncl);
          return;
        }
        if cs == 1 {
          return 1;
        }
        if ncl == scl {
          ScanFull(F, scl, n);
          return 0;
        }
        ScanNext(F, scl, n, ncl);
      }
    }

    /** Marks the free cluster ncl as the end of a chain, links clst to it, and counts it. */
    method TakeCluster(clst: nat, ncl: nat, ghost L0: Disk)
      requires Valid() && DataKept(g, L0, Logical()) && IsCluster(Fat(), ncl) && Fat()[ncl] == 0
      requires clst == 0 || (IsCluster(Fat(), clst) && Fat()[clst] != 0)
      modifies this`disk, this`winsect, this`wflag, win, this`free_clust, this`fsi_flag, this`last_clust
      ensures Valid() && DataKept(g, L0, Logical()) && last_clust == ncl && (old(Counted()) ==> Counted())
      ensures fsi_flag == (old(fsi_flag) || old(free_clust) != UNKNOWN)
      ensures Fat() == Appended(old(Fat()), clst, ncl, Stored(g.fs_type, EOC))
      ensures winsect == old(winsect) || InFat(g, winsect)
      ensures old(Mirrored()) ==> Mirrored()
    {
      hide Sane, CopiesOK, FatOf, InFat, Mirrored, Stored, Allocated, Kept, DataKept;
      EndMark(g, sectors, ncl);
      AppendCount(Fat(), clst, ncl, Stored(g.fs_type, EOC));
      ghost var L1 := Logical();
      var ok := PutCluster(ncl, EOC);
      DataTwice(L0, L1, Logical());
      if clst != 0 {
        ghost var L2 := Logical();
        ok := PutCluster(clst, ncl);
        DataTwice(L0, L2, Logical());
      }
      last_clust := ncl;
      if free_clust != UNKNOWN {
        free_clust := (free_clust + 0xFFFF_FFFF) % 0x1_0000_0000;
        fsi_flag := true;
      }
    }

    /** create_chain */
    method CreateChain(clst: nat) returns (r: nat)
      requires Valid()
      modifies this`disk, this`winsect, this`wflag, win, this`free_clust, this`fsi_flag, this`last_clust
      ensures Valid() && DataKept(g, old(Logical()), Logical()) && (old(Counted()) ==> Counted())
      ensures Created(old(Fat()), clst, old(last_clust), Stored(g.fs_type, EOC), r, Fat())
      ensures Fat() != old(Fat()) ==> last_clust == r && fsi_flag == (old(fsi_flag) || old(free_clust) != UNKNOWN)
      ensures winsect == old(winsect) || InFat(g, winsect)
      ensures old(Mirrored()) ==> Mirrored()
      ensures old(Forest(Fat())) && (clst == 0 || (IsCluster(old(Fat()), clst) && old(Fat())[clst] != 0)) ==>
        Forest(Fat()) && r != 1
    {
      hide Sane, CopiesOK, FatOf, InFat, Mirrored, Stored, Allocated, DataKept, Forest, Full, NextFree, Appended,
        Counted;
      ghost var L0, F := Logical(), Fat();
      DataSame(L0);
      r := Extend(clst, L0);
      EndMark(g, sectors, 0);
      if Forest(F) && (clst == 0 || (IsCluster(F, clst) && F[clst] != 0)) {
        CreatedInForest(F, clst, old(last_clust), Stored(g.fs_type, EOC), r, Fat());
      }
    }

    method Extend(clst: nat, ghost L0: Disk) returns (r: nat)
      requires Valid() && DataKept(g, L0, Logical())
      modifies this`disk, this`winsect, this`wflag, win, this`free_clust, this`fsi_flag, this`last_clust
      ensures Valid() && DataKept(g, L0, Logical()) && (old(Counted()) ==> Counted())
      ensures Created(old(Fat()), clst, old(last_clust), Stored(g.fs_type, EOC), r, Fat())
      ensures Fat() != old(Fat()) ==> last_clust == r && fsi_flag == (old(fsi_flag) || old(free_clust) != UNKNOWN)
      ensures winsect == old(winsect) || InFat(g, winsect)
      ensures old(Mirrored()) ==> Mirrored()
    {
      hide Sane, CopiesOK, FatOf, InFat, Mirrored, Stored, Allocated, DataKept, Full, NextFree, Appended, Counted;
      var scl;
      if clst == 0 {
        scl := last_clust;
        if scl == 0 || scl >= g.max_clust {
          scl := 1;
        }
      } else {
        var cs := GetNext(clst, L0);
        if cs < 2 {
          return 1;
        }
        if cs < g.max_clust {
          return cs;
        }
        scl := clst;
      }
      assert 1 < g.max_clust by { EndMark(g, sectors, 1); TwoClusters(); }
      r := FindFree(scl, L0);
      if r >= 2 {
        TakeCluster(clst, r, L0);
      }
    }

    lemma TwoClusters()
      requires Sane(g, sectors)
      ensures g.max_clust >= 2
    {
    }

    // ---------- data sectors ----------

    /** disk_write of a sector that is not in the window. */
    method WriteSector(s: nat, c: Sector)
      requires Valid() && s < sectors && s != winsect && !InFat(g, s) && !InCopies(g, s)
      modifies this`disk
      ensures Valid() && Logical() == old(Logical())[s := c] && Fat() == old(Fat())
      ensures old(Mirrored()) ==> Mirrored()
      ensures old(Counted()) ==> Counted()
    {
      hide Sane, FatOf, InFat, InCopies, CopyOK, CopiesOK, Allocated;
      FatBeside(g, Logical(), s, c);
      CopiesBeside(g, disk, s, c, if wflag then winsect else -1);
      disk := disk[s := c];
    }

    /** sync: writes the window back, and the free cluster count and the last cluster of a 32-bit volume. */
    method Sync()
      requires Valid()
      modifies this`disk, this`winsect, this`wflag, win, this`fsi_flag
      ensures Valid() && !wflag && winsect in {0, old(winsect)}
      ensures forall s :: 0 <= s < sectors && !InCopies(g, s) && s != g.fsi_sector ==> disk[s] == old(Logical())[s]
      ensures g.fsi_sector < sectors && if g.fs_type == Fat32 && old(fsi_flag)
                then !fsi_flag && disk[g.fsi_sector] == Info(free_clust, last_clust)
                else fsi_flag == old(fsi_flag) && disk[g.fsi_sector] == old(Logical())[g.fsi_sector]
      ensures Fat() == old(Fat())
      ensures old(Mirrored()) ==> Mirrored()
      ensures old(Counted()) ==> Counted()
    {
      hide Sane, FatOf, CopyOK, CopiesOK, Allocated, Info;
      ghost var L := Logical();
      InfoBeside(g, sectors);
      MoveWindow(0);
      FatKept(g, L, disk);
      if g.fs_type == Fat32 && fsi_flag {
        ghost var D := disk;
        winsect := 0;
        FillInfo();
        FatBeside(g, D, g.fsi_sector, win[..]);
        CopiesBeside(g, D, g.fsi_sector, win[..], -1);
        disk := disk[g.fsi_sector := win[..]];
        fsi_flag := false;
      }
    }

    /** The window as the FSInfo sector. */
    method FillInfo()
      requires win.Length == SS
      modifies win
      ensures win[..] == Info(free_clust, last_clust)
    {
      for i := 0 to SS
        invariant win[..i] == seq(i, _ => 0)
      {
        win[i] := 0;
      }
      win[510], win[511] := 0x55, 0xAA;
      win[0], win[1], win[2], win[3] := 0x52, 0x52, 0x61, 0x41;
      win[484], win[485], win[486], win[487] := 0x72, 0x72, 0x41, 0x61;
      Store4(488, free_clust);
      Store4(492, last_clust);
    }

    /** ST_DWORD into the window. */
    method Store4(j: nat, v: nat)
      requires win.Length == SS && j + 4 <= SS
      modifies win
      ensures win[..] == Poked(old(win[..]), j, 4, v)
    {
      win[j] := v % 0x100;
      win[j + 1] := v / 0x100 % 0x100;
      win[j + 2] := v / 0x1_0000 % 0x100;
      win[j + 3] := v / 0x100_0000 % 0x100;
    }

    static function Info(free: nat, last: nat): Sector {
      var z: Sector := seq(SS, _ => 0);
      var c: Sector := z[510 := 0x55][511 := 0xAA][0 := 0x52][1 := 0x52][2 := 0x61][3 := 0x41]
        [484 := 0x72][485 := 0x72][486 := 0x41][487 := 0x61];
      Poked(Poked(c, 488, 4, free), 492, 4, last)
    }

    /** The count and the last cluster that sync stores are those that auto_mount loads, with its signatures. */
    static lemma InfoRead(free: nat, last: nat)
      requires free < 0x1_0000_0000 && last < 0x1_0000_0000
      ensures var c := Info(free, last);
        && LoadDouble(c, 488) == free && LoadDouble(c, 492) == last
        && LoadWord(c, 510) == 0xAA55 && LoadDouble(c, 0) == 0x41615252 && LoadDouble(c, 484) == 0x61417272
    {
      FourBytes(free);
      FourBytes(last);
    }

    static lemma FourBytes(v: nat)
      requires v < 0x1_0000_0000
      ensures v % 0x100 + 0x100 * (v / 0x100 % 0x100) + 0x1_0000 * (v / 0x1_0000 % 0x100)
              + 0x100_0000 * (v / 0x100_0000 % 0x100) == v
    {
    }

    /** A directory entry with its size, start cluster and time of the last write, and the archive bit set. */
    static function Entered(c: Sector, p: nat, size: nat, clust: nat, tim: nat): Sector
      requires p + 32 <= SS
    {
      var a: int := c[p + 11];
      var c0: Sector := c[p + 11 := if a / 0x20 % 2 == 1 then a else a + 0x20];
      var c1 := Poked2(Poked2(c0, p + 28, size), p + 30, size / 0x1_0000);
      var c2 := Poked2(Poked2(c1, p + 26, clust), p + 20, clust / 0x1_0000);
      Poked2(Poked2(c2, p + 22, tim), p + 24, tim / 0x1_0000)
    }

    /** ST_WORD into the window. */
    method Store2(j: nat, v: nat)
      requires win.Length == SS && j + 2 <= SS
      modifies win
      ensures win[..] == Poked2(old(win[..]), j, v)
    {
      win[j] := v % 0x100;
      win[j + 1] := v / 0x100 % 0x100;
    }

    /** The writes of f_sync to the directory entry in the window. */
    method StoreEntry(p: nat, size: nat, clust: nat, tim: nat)
      requires Valid() && winsect >= g.fatbase && winsect > 0 && !InFat(g, winsect) && win[..] == Logical()[winsect]
        && p + 32 <= SS
      modifies win, this`wflag
      ensures Valid() && wflag && Logical() == old(Logical())[winsect := Entered(old(win[..]), p, size, clust, tim)]
      ensures Fat() == old(Fat())
      ensures old(Mirrored()) ==> Mirrored()
      ensures old(Counted()) ==> Counted()
    {
      hide Sane, FatOf, InFat, InCopies, CopyOK, CopiesOK, Allocated, Poked2;
      FatBeside(g, Logical(), winsect, Entered(win[..], p, size, clust, tim));
      if !wflag && Mirrored() { CopiesExcept(g, disk, winsect); }
      var a: int := win[p + 11];
      win[p + 11] := if a / 0x20 % 2 == 1 then a else a + 0x20;
      Store2(p + 28, size);
      Store2(p + 30, size / 0x1_0000);
      Store2(p + 26, clust);
      Store2(p + 20, clust / 0x1_0000);
      Store2(p + 22, tim);
      Store2(p + 24, tim / 0x1_0000);
      wflag := true;
    }
  }
}

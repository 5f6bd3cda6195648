/** Committing an overlay image into its backing image (bdrv_commit, block.c). */
module ImageCommit {
  import opened Basics

  const COMMIT_BUF_SECTORS: nat := 2048

  type Sector = seq<Byte>

  /** An unwritten sector. */
  function Zero(): Sector
  {
    seq(512, _ => 0)
  }

  function Zeroes(n: nat): (s: seq<Sector>)
    ensures |s| == n && forall i :: 0 <= i < n ==> s[i] == Zero()
  {
    if n == 0 then [] else Zeroes(n - 1) + [Zero()]
  }

  datatype Error = NoMedium | NotSupported | Busy | Access | Io | NoMemory

  /** What the guest reads: its own sector, else the backing image's, else zeroes behind its end. */
  function ViewAt(overlay: seq<Option<Sector>>, backing: seq<Sector>, i: nat): Sector
    requires i < |overlay|
  {
    if overlay[i].Some? then overlay[i].value else if i < |backing| then backing[i] else Zero()
  }

  ghost predicate SameView(overlay: seq<Option<Sector>>, backing: seq<Sector>, overlay': seq<Option<Sector>>, backing': seq<Sector>)
  {
    && |overlay'| == |overlay|
    && forall i :: 0 <= i < |overlay| ==> ViewAt(overlay', backing', i) == ViewAt(overlay, backing, i)
  }

  /** The backing image alone reads as the guest's view up to sector `n`. */
  ghost predicate CommittedTo(overlay: seq<Option<Sector>>, backing: seq<Sector>, n: nat)
  {
    n <= |overlay| <= |backing| && forall i :: 0 <= i < n ==> backing[i] == ViewAt(overlay, backing, i)
  }

  /** `backing'` is `backing` with some of the sectors `[from, from + |data|)` overwritten by `data`. */
  predicate PartlyWritten(backing: seq<Sector>, backing': seq<Sector>, from: nat, data: seq<Sector>)
  {
    && |backing'| == |backing| && from + |data| <= |backing|
    && (forall i :: 0 <= i < |data| ==> backing'[from + i] == backing[from + i] || backing'[from + i] == data[i])
    && forall i :: 0 <= i < |backing| && !(from <= i < from + |data|) ==> backing'[i] == backing[i]
  }

  /** The next `n` sectors are all allocated in the overlay, or none of them is. */
  predicate OneRun(overlay: seq<Option<Sector>>, sector: nat, n: nat)
  {
    sector + n <= |overlay| && forall i :: sector <= i < sector + n ==> (overlay[i].Some? <==> overlay[sector].Some?)
  }

  /** The backing image has not shrunk, and from sector `n` on it is as it was. */
  ghost predicate RestKept(backing: seq<Sector>, backing': seq<Sector>, n: nat)
  {
    |backing| <= |backing'| && forall i :: n <= i < |backing| ==> backing'[i] == backing[i]
  }

  /** Writing sectors that the overlay has can not be seen by the guest, not even half done. */
  lemma WriteUnseen(overlay: seq<Option<Sector>>, backing: seq<Sector>, backing': seq<Sector>, sector: nat, data: seq<Sector>)
    requires PartlyWritten(backing, backing', sector, data) && sector + |data| <= |overlay| <= |backing|
    requires forall i :: 0 <= i < |data| ==> overlay[sector + i] == Some(data[i])
    ensures SameView(overlay, backing, overlay, backing') && RestKept(backing, backing', |overlay|)
  {
    forall i | 0 <= i < |overlay|
      ensures ViewAt(overlay, backing', i) == ViewAt(overlay, backing, i)
    {
      if sector <= i < sector + |data| {
        assert overlay[sector + (i - sector)] == Some(data[i - sector]);
      }
    }
  }

  lemma RunCommitted(overlay: seq<Option<Sector>>, backing: seq<Sector>, sector: nat, data: seq<Sector>)
    requires CommittedTo(overlay, backing, sector) && sector + |data| <= |overlay|
    requires forall i :: 0 <= i < |data| ==> overlay[sector + i] == Some(data[i])
    ensures CommittedTo(overlay, Splice(backing, sector, data), sector + |data|)
  {
    var backing' := Splice(backing, sector, data);
    forall i | 0 <= i < sector + |data|
      ensures backing'[i] == ViewAt(overlay, backing', i)
    {
      if i >= sector {
        assert overlay[sector + (i - sector)] == Some(data[i - sector]);
      }
    }
  }

  lemma RunSkipped(overlay: seq<Option<Sector>>, backing: seq<Sector>, sector: nat, n: nat)
    requires CommittedTo(overlay, backing, sector) && OneRun(overlay, sector, n) && n > 0 && overlay[sector] == None
    ensures CommittedTo(overlay, backing, sector + n)
  {
  }

  /** Emptying an overlay that has been committed, wholly or in part, can not be seen by the guest. */
  lemma EmptyUnseen(overlay: seq<Option<Sector>>, backing: seq<Sector>, overlay': seq<Option<Sector>>)
    requires CommittedTo(overlay, backing, |overlay|) && |overlay'| == |overlay|
    requires forall i :: 0 <= i < |overlay| ==> overlay'[i] == None || overlay'[i] == overlay[i]
    ensures SameView(overlay, backing, overlay', backing)
  {
  }

  lemma Unseen(overlay: seq<Option<Sector>>, backing: seq<Sector>, backing': seq<Sector>, backing'': seq<Sector>)
    requires SameView(overlay, backing, overlay, backing') && SameView(overlay, backing', overlay, backing'')
    requires RestKept(backing, backing', |overlay|) && RestKept(backing', backing'', |overlay|)
    ensures SameView(overlay, backing, overlay, backing'') && RestKept(backing, backing'', |overlay|)
  {
  }

  /** An overlay with its backing image, if it has one. */
  class Image {
    const hasMedium: bool
    const blocked: bool
    const canMakeEmpty: bool
    var overlay: seq<Option<Sector>>
    var backing: Option<seq<Sector>>
    /** A driver or an allocation has failed. */
    ghost var failed: bool

    constructor (medium: bool, busy: bool, emptiable: bool, over: seq<Option<Sector>>, under: Option<seq<Sector>>)
      ensures overlay == over && backing == under && !failed
      ensures hasMedium == medium && blocked == busy && canMakeEmpty == emptiable
    {
      hasMedium, blocked, canMakeEmpty, overlay, backing, failed := medium, busy, emptiable, over, under, false;
    }

    /** Something outside this model is asked to do its part. */
    method Try() returns (ok: bool)
      requires !failed
      modifies `failed
      ensures ok <==> !failed
    {
      ok := *;
      failed := !ok;
    }

    /** bdrv_write to the backing image; a failed write may have overwritten any of the sectors. */
    method WriteBacking(sector: nat, data: seq<Sector>) returns (ok: bool)
      requires backing.Some? && sector + |data| <= |backing.value| && !failed
      modifies `backing, `failed
      ensures ok <==> !failed
      ensures backing.Some? && PartlyWritten(old(backing.value), backing.value, sector, data)
      ensures ok ==> backing.value == Splice(old(backing.value), sector, data)
    {
      ok := Try();
      if ok {
        backing := Some(Splice(backing.value, sector, data));
      } else {
        assert PartlyWritten(backing.value, backing.value, sector, data);
        var written: seq<Sector> :| PartlyWritten(backing.value, written, sector, data);
        backing := Some(written);
      }
    }

    /** drv->bdrv_make_empty; when it fails, some of the sectors may be gone already. */
    method MakeEmpty() returns (ok: bool)
      requires !failed
      modifies `overlay, `failed
      ensures ok <==> !failed
      ensures |overlay| == |old(overlay)|
      ensures forall i :: 0 <= i < |overlay| ==> overlay[i] == None || overlay[i] == old(overlay)[i]
      ensures ok ==> forall i :: 0 <= i < |overlay| ==> overlay[i] == None
    {
      ok := true;
      ghost var before := overlay;
      for k := 0 to |overlay|
        invariant |overlay| == |before|
        invariant forall i :: 0 <= i < k ==> overlay[i] == None || overlay[i] == before[i]
        invariant forall i :: k <= i < |overlay| ==> overlay[i] == before[i]
        invariant ok ==> forall i :: 0 <= i < k ==> overlay[i] == None
        invariant ok <==> !failed
      {
        if * {
          overlay := overlay[k := None];
        } else {
          ok := false;
          failed := true;
        }
      }
    }

    /** bdrv_read of sectors that are allocated in the overlay. */
    method ReadRun(sector: nat, n: nat) returns (buf: seq<Sector>)
      requires OneRun(overlay, sector, n) && n > 0 && overlay[sector].Some?
      ensures |buf| == n && forall i :: 0 <= i < n ==> overlay[sector + i] == Some(buf[i])
    {
      buf := [];
      for k := 0 to n
        invariant |buf| == k && forall i :: 0 <= i < k ==> overlay[sector + i] == Some(buf[i])
      {
        buf := buf + [overlay[sector + k].value];
      }
    }

    /** One turn of the loop: the next run is copied if it is allocated. */
    method CommitRun(sector: nat) returns (ok: bool, n: nat)
      requires backing.Some? && CommittedTo(overlay, backing.value, sector) && sector < |overlay| && !failed
      modifies `backing, `failed
      ensures ok <==> !failed
      ensures backing.Some? && |backing.value| == |old(backing.value)|
      ensures SameView(overlay, old(backing.value), overlay, backing.value)
      ensures RestKept(old(backing.value), backing.value, |overlay|)
      ensures ok ==> 1 <= n && sector + n <= |overlay| && CommittedTo(overlay, backing.value, sector + n)
    {
      n := 0;
      ok := Try();
      if !ok {
        return;
      }
      assert OneRun(overlay, sector, 1);
      n :| 1 <= n <= COMMIT_BUF_SECTORS && OneRun(overlay, sector, n);
      ok := true;
      if overlay[sector].Some? {
        ok := Try();
        if !ok {
          return;
        }
        var buf := ReadRun(sector, n);
        ghost var before := backing.value;
        ok := WriteBacking(sector, buf);
        WriteUnseen(overlay, before, backing.value, sector, buf);
        RunCommitted(overlay, before, sector, buf);
      } else {
        RunSkipped(overlay, backing.value, sector, n);
      }
    }

    /**
     bdrv_commit.  Whatever happens the guest reads the same as before, and the backing image behind
     the overlay's end stays; if it succeeds the backing image alone reads as the guest's view.
     */
    method Commit() returns (result: Option<Error>)
      requires !failed
      modifies `overlay, `backing, `failed
      ensures result == None <==> hasMedium && backing.Some? && !blocked && !failed
      ensures backing.Some? <==> old(backing).Some?
      ensures backing.Some? ==> SameView(old(overlay), old(backing.value), overlay, backing.value)
      ensures backing.Some? ==> RestKept(old(backing.value), backing.value, |overlay|)
      ensures !hasMedium || backing == None || blocked ==>
                && backing == old(backing) && overlay == old(overlay)
                && result == Some(if !hasMedium then NoMedium else if backing == None then NotSupported else Busy)
      ensures result == None ==> CommittedTo(old(overlay), backing.value, |overlay|)
      ensures result == None && canMakeEmpty ==> forall i :: 0 <= i < |overlay| ==> overlay[i] == None
      ensures !canMakeEmpty ==> overlay == old(overlay)
    {
      if !hasMedium {
        return Some(NoMedium);
      }
      if backing == None {
        return Some(NotSupported);
      }
      if blocked {
        return Some(Busy);
      }
      var ok := Try();
      if !ok {
        return Some(Access);
      }
      ok := Try();
      if !ok {
        return Some(Io);
      }
      if |overlay| > |backing.value| {
        ok := Try();
        if !ok {
          return Some(Io);
        }
        backing := Some(backing.value + Zeroes(|overlay| - |backing.value|));
      }
      ok := Try();
      if !ok {
        return Some(NoMemory);
      }
      var sector: nat := 0;
      while sector < |overlay|
        invariant !failed && overlay == old(overlay) && backing.Some? && CommittedTo(overlay, backing.value, sector)
        invariant SameView(overlay, old(backing.value), overlay, backing.value)
        invariant RestKept(old(backing.value), backing.value, |overlay|)
        decreases |overlay| - sector
      {
        ghost var before := backing.value;
        var n;
        ok, n := CommitRun(sector);
        Unseen(overlay, old(backing.value), before, backing.value);
        if !ok {
          return Some(Io);
        }
        sector := sector + n;
      }
      if canMakeEmpty {
        ghost var before := overlay;
        ok := MakeEmpty();
        EmptyUnseen(before, backing.value, overlay);
        if !ok {
          return Some(Io);
        }
      }
      return None;
    }
  }
}

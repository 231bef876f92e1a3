/** cfg/local.sh on the guest, rewritten in place by sed, awk and appends. */
module GuestFile {
  import opened LocalSh
  import opened LocalShEdits
  import opened KeptBlocks

  class LocalShFile {
    const m: Marks
    var lines: seq<string>

    constructor (m: Marks, lines: seq<string>)
      ensures this.m == m && this.lines == lines
    {
      this.m, this.lines := m, lines;
    }

    /** sed -i '/^BEGIN/,/^END/d' */
    method DeleteRange(k: Kind)
      modifies this
      ensures lines == DeleteBlocks(m, old(lines), k, false)
    {
      var out: seq<string>, inside := [], false;
      var i := 0;
      while i < |lines|
        invariant i <= |lines| && lines == old(lines)
        invariant out + DeleteBlocks(m, lines[i..], k, inside) == DeleteBlocks(m, lines, k, false)
      {
        assert lines[i..][0] == lines[i] && lines[i..][1..] == lines[i + 1..];
        if inside {
          inside := !IsEnd(m, lines[i], k);
        } else if IsBegin(m, lines[i], k) {
          inside := true;
        } else {
          Assoc(out, [lines[i]], DeleteBlocks(m, lines[i + 1..], k, false));
          out := out + [lines[i]];
        }
        i := i + 1;
      }
      lines := out;
    }

    /** The lines that save the environment go on top, once. */
    method EnsureSaved()
      modifies this
      ensures lines == EnsureEnvSave(m, old(lines))
    {
      if !HasSave(lines) {
        DeleteRange(EnvSave);
        lines := SegLines(SaveBlock(m)) + lines;
      }
    }

    method Append(block: seq<string>)
      modifies this
      ensures lines == old(lines) + [""] + block
    {
      lines := lines + [""] + block;
    }

    /** The awk pass: the new block replaces the old one where it sits. */
    method RewriteBlock(k: Kind, block: seq<string>)
      modifies this
      ensures lines == Rewrite(m, old(lines), k, block, false)
    {
      var out: seq<string>, skip := [], false;
      var i := 0;
      while i < |lines|
        invariant i <= |lines| && lines == old(lines)
        invariant out + Rewrite(m, lines[i..], k, block, skip) == Rewrite(m, lines, k, block, false)
      {
        assert lines[i..][0] == lines[i] && lines[i..][1..] == lines[i + 1..];
        if IsBegin(m, lines[i], k) {
          Assoc(out, block, Rewrite(m, lines[i + 1..], k, block, true));
          out, skip := out + block, true;
        } else if IsEnd(m, lines[i], k) {
          skip := false;
        } else if !skip {
          Assoc(out, [lines[i]], Rewrite(m, lines[i + 1..], k, block, false));
          out := out + [lines[i]];
        }
        i := i + 1;
      }
      lines := out;
    }

    method SpliceBlock(k: Kind, block: seq<string>)
      modifies this
      ensures lines == Splice(m, old(lines), k, block)
    {
      EnsureSaved();
      if HasBegin(m, lines, k) {
        RewriteBlock(k, block);
      } else {
        Append(block);
      }
    }

    /** One configure_* call; a refused one reports it and leaves the file alone. */
    method Configure(e: Edit) returns (ok: bool)
      requires e.Restore? ==> e.block.Block?
      modifies this
      ensures ok == !Refused(e)
      ensures lines == Apply(m, e, old(lines))
    {
      ok := !Refused(e);
      if !ok { return; }
      var block := SegLines(EditBlock(m, e));
      match e {
        case TestDisks(_, _, _) =>
          SpliceBlock(Disk, block);
        case RamOsts(_, _, _) =>
          EnsureSaved();
          DeleteRange(Ram);
          Append(block);
        case OstTotal(n, _, _, _) =>
          if n == 0 {
            DeleteRange(OstCount);
          } else {
            DeleteRange(Ram);
            SpliceBlock(OstCount, block);
          }
        case FsType(_) =>
          DeleteRange(Fstype);
          EnsureSaved();
          Append(block);
        case Restore(b) =>
          SpliceBlock(b.kind, block);
      }
    }

    /** The blocks a deploy did not rewrite itself, put back in their fixed order. */
    method RestoreKept(blocks: map<Kind, seq<string>>, skip: set<Kind>)
      modifies this
      ensures lines == RestoreAll(m, old(lines), blocks, skip)
    {
      for n := 0 to |KEPT|
        invariant lines == PutFirst(m, old(lines), blocks, skip, n)
      {
        var k := KEPT[n];
        if k !in skip && k in blocks {
          SpliceBlock(k, blocks[k]);
        }
      }
      PutFirstIsRestore(m, old(lines), blocks, skip);
    }

    /** A redeploy: the staging's stock file replaces this one, and the kept blocks follow. */
    method Redeploy(stock: seq<string>, skip: set<Kind>)
      modifies this
      ensures lines == RestoreAll(m, stock, Kept(m, old(lines)), skip)
    {
      var blocks := ParseKeptBlocks(m, lines);
      lines := stock;
      RestoreKept(blocks, skip);
    }
  }

  /** The first `n` kept blocks put back. */
  function PutFirst(m: Marks, lines: seq<string>, blocks: map<Kind, seq<string>>, skip: set<Kind>, n: nat): seq<string>
    requires n <= |KEPT|
  {
    if n == 0 then lines else Put(m, PutFirst(m, lines, blocks, skip, n - 1), blocks, skip, KEPT[n - 1])
  }

  lemma PutFirstIsRestore(m: Marks, lines: seq<string>, blocks: map<Kind, seq<string>>, skip: set<Kind>)
    ensures PutFirst(m, lines, blocks, skip, |KEPT|) == RestoreAll(m, lines, blocks, skip)
  {
    assert PutFirst(m, lines, blocks, skip, 1) == Put(m, lines, blocks, skip, OstCount);
    assert PutFirst(m, lines, blocks, skip, 2) == Put(m, PutFirst(m, lines, blocks, skip, 1), blocks, skip, Fstype);
  }
}

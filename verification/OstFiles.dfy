/** The size of file-backed OSTs that share a guest's free space. */
module OstFiles {

  const RESERVE_KB := 1024 * 1024
  const MIN_KB := 256 * 1024

  function OstFileKb(space: int, files: nat, cap: nat): int
    requires files > 0
  {
    var share := (space - RESERVE_KB) / files;
    var capped := if cap != 0 && cap < share then cap else share;
    var whole := capped / 1024 * 1024;
    if whole >= MIN_KB then whole else 0
  }

  /** The free space the error message asks for. */
  function NeededKb(files: nat): nat { files * MIN_KB + RESERVE_KB }

  lemma ShareBounds(x: int, files: nat, min: int)
    requires files > 0
    ensures x / files >= min <==> x >= files * min
    ensures files * (x / files) <= x
  {
    var q, r := x / files, x % files;
    assert x == files * q + r;
    assert q >= min ==> files * q >= files * min;
    assert q < min ==> files * (q + 1) <= files * min;
    assert files * (q + 1) == files * q + files;
  }

  /** A size is found exactly when the stated space is free and the cap is not below the
      minimum; it is a whole number of MiB within the cap, and the files fit beside the
      reserve. */
  lemma OstFilesFit(space: int, files: nat, cap: nat)
    requires files > 0
    ensures OstFileKb(space, files, cap) != 0 <==> space >= NeededKb(files) && (cap == 0 || cap >= MIN_KB)
    ensures var kb := OstFileKb(space, files, cap);
            kb != 0 ==>
              && kb % 1024 == 0 && kb >= MIN_KB && (cap != 0 ==> kb <= cap)
              && files * kb + RESERVE_KB <= space
  {
    ShareBounds(space - RESERVE_KB, files, MIN_KB);
    var share := (space - RESERVE_KB) / files;
    var kb := OstFileKb(space, files, cap);
    assert kb != 0 ==> kb <= share;
    assert kb <= share ==> files * kb <= files * share;
  }

  /** No larger MiB-aligned size within the cap would fit. */
  lemma OstFilesAreLargest(space: int, files: nat, cap: nat, other: nat)
    requires files > 0 && OstFileKb(space, files, cap) != 0
    requires other % 1024 == 0 && (cap != 0 ==> other <= cap) && files * other + RESERVE_KB <= space
    ensures other <= OstFileKb(space, files, cap)
  {
    ShareBounds(space - RESERVE_KB, files, other);
  }
}

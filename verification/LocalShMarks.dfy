/** The markers ltvm writes, and that they can be told apart. */
module LocalShMarks {
  import opened LocalSh

  function BeginMark(k: Kind): string {
    match k
    case EnvSave => "# --- ltvm: " + "target counts from the environment"
    case Disk => "# --- VM disk configuration"
    case Ram => "# --- RAM OST configuration"
    case OstCount => "# --- OST count"
    case Fstype => "# --- FSTYPE"
    case Cluster => "# --- Cluster configuration"
  }

  function EndMark(k: Kind): string {
    match k
    case EnvSave => "# --- END ltvm: " + "target counts from the environment"
    case Disk => "# --- END VM disk configuration"
    case Ram => "# --- END RAM OST"
    case OstCount => "# --- END OST count"
    case Fstype => "# --- END FSTYPE"
    case Cluster => "# --- END cluster configuration"
  }

  /** The characters that tell the markers apart. */
  function BeginChar(k: Kind): char {
    match k
    case EnvSave => 'l' case Disk => 'V' case Ram => 'R'
    case OstCount => 'O' case Fstype => 'F' case Cluster => 'C'
  }

  function EndChar(k: Kind): char {
    match k
    case EnvSave => 'l' case Disk => 'V' case Ram => 'R'
    case OstCount => 'O' case Fstype => 'F' case Cluster => 'c'
  }

  lemma MarkChars(k: Kind)
    ensures |BeginMark(k)| > 10 && BeginMark(k)[0] == '#' && BeginMark(k)[6] == BeginChar(k)
    ensures |EndMark(k)| > 10 && EndMark(k)[0] == '#' && EndMark(k)[6] == 'E' && EndMark(k)[10] == EndChar(k)
  {
    match k
    case EnvSave =>
    case Disk =>
    case Ram =>
    case OstCount =>
    case Fstype =>
    case Cluster =>
  }

  function LtvmMarks(): Marks { Marks(BeginMark, EndMark) }

  lemma LtvmMarksSeparate()
    ensures Separate(LtvmMarks())
  {
    forall k ensures |BeginMark(k)| > 10 && BeginMark(k)[0] == '#' && BeginMark(k)[6] == BeginChar(k)
      ensures |EndMark(k)| > 10 && EndMark(k)[0] == '#' && EndMark(k)[6] == 'E' && EndMark(k)[10] == EndChar(k)
    {
      MarkChars(k);
    }
  }
}

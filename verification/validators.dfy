/**
 * The write policy `is_writable` and the hostname validator
 * `is_valid_hostname` of util/validators.py.
 *
 * The filesystem is an immutable map from path to content: a path exists
 * exactly when it is a key. The notice `is_writable` prints is returned as a
 * value.
 */
module Validators {
  import opened Results
  import opened Text
  import Labels

  type Path = string

  type FileSystem = map<Path, string>

  /** What the write policy decides for one destination. */
  datatype Decision = Create | Overwrite | Skip {
    /** Create and Overwrite let the write go ahead; Skip leaves the file alone. */
    predicate Proceeds() {
      this != Skip
    }
  }

  /** The boolean `is_writable` returns, as a decision, plus the line it prints. */
  datatype PolicyCheck = PolicyCheck(decision: Decision, notice: string) {
    predicate Writable() {
      decision.Proceeds()
    }
  }

  /** The operator-facing line printed for each decision; it names the path. */
  function Notice(d: Decision, path: Path): (n: string)
    ensures Mentions(n, path)
  {
    var n := match d
      case Create => "Creating [" + path + "]"
      case Overwrite => "path [" + path + "] exists, overwriting"
      case Skip => "path [" + path + "] exists, skipping";
    assert n == NoticePrefix(d) + path + NoticeSuffix(d);
    assert OccursAt(n, path, |NoticePrefix(d)|);
    n
  }

  /**
   * `is_writable(path, overwrite)`: an absent path is always created; an
   * existing one is overwritten exactly when the run-wide flag is set.
   * Nothing in the filesystem changes.
   */
  function IsWritable(fs: FileSystem, path: Path, overwrite: bool): (r: PolicyCheck)
    ensures path !in fs ==> r.decision == Create && r.Writable()
    ensures path in fs ==> (r.Writable() <==> overwrite)
    ensures r.decision == Overwrite <==> path in fs && overwrite
    ensures r.decision == Skip <==> path in fs && !overwrite
    ensures r.notice == Notice(r.decision, path)
    ensures Mentions(r.notice, path)
  {
    var d := if path !in fs then Create else if overwrite then Overwrite else Skip;
    PolicyCheck(d, Notice(d, path))
  }

  /** The text a notice puts before the path. */
  function NoticePrefix(d: Decision): string {
    if d == Create then "Creating [" else "path ["
  }

  /** The text a notice puts after the path. */
  function NoticeSuffix(d: Decision): string {
    match d
    case Create => "]"
    case Overwrite => "] exists, overwriting"
    case Skip => "] exists, skipping"
  }

  lemma NoticeShape(d: Decision, path: Path)
    ensures Notice(d, path) == NoticePrefix(d) + path + NoticeSuffix(d)
  {
  }

  /** A creation notice starts with 'C', the two others with 'p'. */
  lemma NoticeFirstChar(d: Decision, path: Path)
    ensures Notice(d, path)[0] == (if d == Create then 'C' else 'p')
  {
    NoticeShape(d, path);
  }

  /** "overwriting" and "skipping" differ in their fourth character from the end. */
  lemma NoticeFourthFromEnd(d: Decision, path: Path)
    requires d != Create
    ensures Notice(d, path)[|Notice(d, path)| - 4] == (if d == Overwrite then 't' else 'p')
  {
    NoticeShape(d, path);
  }

  /**
   * The notice tells the operator both the outcome and the path: two calls
   * print the same line only when they decided the same thing for the same
   * path.
   */
  lemma NoticeIdentifiesOutcome(d1: Decision, p1: Path, d2: Decision, p2: Path)
    requires Notice(d1, p1) == Notice(d2, p2)
    ensures d1 == d2 && p1 == p2
  {
    var n := Notice(d1, p1);
    NoticeShape(d1, p1);
    NoticeShape(d2, p2);
    if (d1 == Create) != (d2 == Create) {
      NoticeFirstChar(d1, p1);
      NoticeFirstChar(d2, p2);
    } else if d1 != d2 {
      NoticeFourthFromEnd(d1, p1);
      NoticeFourthFromEnd(d2, p2);
    } else {
      assert |p1| == |p2|;
      var k := |NoticePrefix(d1)|;
      assert p1 == n[k..k + |p1|];
      assert p2 == n[k..k + |p2|];
    }
  }

  const MaxHostnameLength: nat := 255
  const MaxLabelLength: nat := 63

  datatype HostnameError =
    | TooLong(name: string)       // longer than 255 characters
    | EmptyName                   // `arg[-1]` fails on the empty string
    | InvalidDomain(name: string) // some label breaks the LDH rule

  /**
   * Letters, digits and hyphen, ASCII only. Python's pattern `[A-Z\d-]` under
   * IGNORECASE also accepts Unicode decimal digits and the non-ASCII letters
   * that case-fold onto A-Z (the Kelvin sign, the long s); that is not
   * modelled.
   */
  predicate LabelChar(c: char) {
    'a' <= c <= 'z' || 'A' <= c <= 'Z' || '0' <= c <= '9' || c == '-'
  }

  /**
   * The pattern `(?!-)[A-Z\d-]{1,63}(?<!-)$`: one to 63 LDH characters, not
   * starting or ending with a hyphen. (Python's `$` also matches before a
   * final newline; that is not modelled.)
   */
  predicate ValidLabel(l: string): (ok: bool)
    ensures ok ==> l != "" && '.' !in l
  {
    && 1 <= |l| <= MaxLabelLength
    && (forall i :: 0 <= i < |l| ==> LabelChar(l[i]))
    && l[0] != '-'
    && l[|l| - 1] != '-'
  }

  /** Every `.`-separated label of `name` is valid. */
  predicate LabelsValid(name: string) {
    forall l :: l in Labels.Split(name, '.') ==> ValidLabel(l)
  }

  /** Drops exactly one trailing dot, if there is one. */
  function StripTrailingDot(arg: string): (r: string)
    requires |arg| > 0
    ensures arg[|arg| - 1] == '.' ==> r + "." == arg
    ensures arg[|arg| - 1] != '.' ==> r == arg
  {
    if arg[|arg| - 1] == '.' then arg[..|arg| - 1] else arg
  }

  /**
   * `is_valid_hostname(arg)`: the length limit applies to the name as given,
   * before one trailing dot is removed; the remaining name is accepted when
   * all its labels are valid, and it is what the validator returns.
   */
  function IsValidHostname(arg: string): (r: Result<string, HostnameError>)
    ensures |arg| > MaxHostnameLength ==> r == Err(TooLong(arg))
    ensures |arg| == 0 ==> r == Err(EmptyName)
    ensures r.Ok? ==> 0 < |arg| <= MaxHostnameLength
    ensures r.Ok? && arg[|arg| - 1] == '.' ==> r.value + "." == arg
    ensures r.Ok? && arg[|arg| - 1] != '.' ==> r.value == arg
    ensures r.Ok? ==> LabelsValid(r.value)
    ensures 0 < |arg| <= MaxHostnameLength && LabelsValid(StripTrailingDot(arg)) ==> r.Ok?
    ensures r.Err? && 0 < |arg| <= MaxHostnameLength ==> r.error == InvalidDomain(StripTrailingDot(arg))
  {
    if |arg| > MaxHostnameLength then Err(TooLong(arg))
    else if |arg| == 0 then Err(EmptyName)
    else
      var name := StripTrailingDot(arg);
      if LabelsValid(name) then Ok(name) else Err(InvalidDomain(name))
  }

}

/**
 * Two definitions of an acceptable host name that do not go through
 * `str.split`, and the proofs that `is_valid_hostname` accepts exactly the
 * names they describe:
 *  - the grammar `label *("." label)` of section 2.3.1 of RFC 1035, with
 *    labels allowed to start with a digit as section 2.1 of RFC 1123 permits;
 *  - a character-level description: which characters may appear, which may
 *    stand next to a dot or at either end, and how far apart dots may be.
 */
module HostnameGrammar {
  import opened Results
  import opened Validators
  import Labels

  /** `name` is one or more valid labels joined by dots. */
  ghost predicate IsDottedLabels(name: string) {
    exists labels: seq<string> ::
      && |labels| > 0
      && (forall i :: 0 <= i < |labels| ==> ValidLabel(labels[i]))
      && Labels.Join(labels, '.') == name
  }

  /** Checking the labels `split` produces is the same as the label grammar. */
  lemma LabelsValidIffDottedLabels(name: string)
    ensures LabelsValid(name) <==> IsDottedLabels(name)
  {
    var parts := Labels.Split(name, '.');
    if LabelsValid(name) {
      assert forall i :: 0 <= i < |parts| ==> parts[i] in parts;
    }
    if IsDottedLabels(name) {
      var labels: seq<string> :|
        && |labels| > 0
        && (forall i :: 0 <= i < |labels| ==> ValidLabel(labels[i]))
        && Labels.Join(labels, '.') == name;
      assert forall i :: 0 <= i < |labels| ==> '.' !in labels[i];
      Labels.SplitJoin(labels, '.');
    }
  }

  /**
   * `is_valid_hostname` accepts a name exactly when it has 1 to 255
   * characters and, after one trailing dot is dropped, follows the label
   * grammar; it then returns that dot-less name.
   */
  lemma AcceptedIffDottedLabels(arg: string)
    ensures IsValidHostname(arg).Ok? <==>
              0 < |arg| <= MaxHostnameLength && IsDottedLabels(StripTrailingDot(arg))
    ensures IsValidHostname(arg).Ok? ==> IsValidHostname(arg).value == StripTrailingDot(arg)
  {
    if 0 < |arg| {
      LabelsValidIffDottedLabels(StripTrailingDot(arg));
    }
  }

  /**
   * The character-level description of a name made of valid labels:
   * only letters, digits, hyphens and dots; no dot or hyphen at either end;
   * a dot is never followed by a dot or a hyphen nor preceded by a hyphen;
   * and every 64 consecutive characters contain a dot.
   */
  predicate WellFormedName(h: string) {
    && |h| > 0
    && (forall i :: 0 <= i < |h| ==> LabelChar(h[i]) || h[i] == '.')
    && h[0] != '.' && h[0] != '-'
    && h[|h| - 1] != '.' && h[|h| - 1] != '-'
    && (forall i :: 0 <= i < |h| - 1 && h[i] == '.' ==> h[i + 1] != '.' && h[i + 1] != '-')
    && (forall i :: 0 <= i < |h| - 1 && h[i + 1] == '.' ==> h[i] != '-')
    && (forall i :: 0 <= i <= |h| - Window ==> DotInWindow(h, i))
  }

  /** One more than the longest label: any longer run of characters needs a dot. */
  const Window: nat := MaxLabelLength + 1

  /** The `Window` characters of `h` starting at `i` include a dot. */
  predicate DotInWindow(h: string, i: int) {
    0 <= i <= |h| - Window && '.' in h[i..i + Window]
  }

  /** A slice holds only characters of the whole. */
  lemma SliceMembers(s: string, i: nat, j: nat)
    requires i <= j <= |s|
    ensures forall c :: c in s[i..j] ==> c in s
  {
    forall c | c in s[i..j]
      ensures c in s
    {
      var k :| 0 <= k < j - i && s[i..j][k] == c;
      assert s[i + k] == c;
    }
  }

  /** No window of a dot-free string holds a dot. */
  lemma DotFreeWindows(a: string)
    requires '.' !in a
    ensures forall i :: 0 <= i <= |a| - Window ==> !DotInWindow(a, i)
  {
    forall i | 0 <= i <= |a| - Window
      ensures !DotInWindow(a, i)
    {
      SliceMembers(a, i, i + Window);
    }
  }

  /** A dot-free string is well formed exactly when it is a valid label. */
  lemma {:induction false} SingleLabelWellFormed(a: string)
    requires '.' !in a
    ensures WellFormedName(a) <==> ValidLabel(a)
  {
    DotFreeWindows(a);
    assert |a| >= Window ==> !DotInWindow(a, 0);
  }

  /** Well-formedness of `a.b` forces a valid first label and a well-formed rest. */
  lemma WellFormedSplitsAtFirstDot(a: string, b: string)
    requires '.' !in a
    requires WellFormedName(a + "." + b)
    ensures ValidLabel(a) && WellFormedName(b)
  {
    FirstLabelOfWellFormed(a, b);
    RestOfWellFormed(a, b);
  }

  /** The label before the first dot of a well-formed name is valid. */
  lemma {:induction false} FirstLabelOfWellFormed(a: string, b: string)
    requires '.' !in a
    requires WellFormedName(a + "." + b)
    ensures ValidLabel(a)
  {
    var h := a + "." + b;
    var k := |a|;
    assert h[k] == '.';
    assert forall j :: 0 <= j < k ==> h[j] == a[j];
    assert k > 0;
    DotFreeWindows(a);
    assert k >= Window ==> h[0..Window] == a[0..Window];
    assert k >= Window ==> !DotInWindow(a, 0);
    assert k >= Window ==> DotInWindow(h, 0);
    assert h[k - 1] != '-';
  }

  /** What follows the first dot of a well-formed name is well formed. */
  lemma {:induction false} RestOfWellFormed(a: string, b: string)
    requires WellFormedName(a + "." + b)
    ensures WellFormedName(b)
  {
    var h := a + "." + b;
    var k := |a|;
    assert h[k] == '.';
    assert forall j :: 0 <= j < |b| ==> h[k + 1 + j] == b[j];
    assert |b| > 0;
    WindowsOfRest(a, b);
    forall j | 0 <= j < |b| - 1 && b[j] == '.'
      ensures b[j + 1] != '.' && b[j + 1] != '-'
    {
      assert h[k + 1 + j] == '.';
    }
    forall j | 0 <= j < |b| - 1 && b[j + 1] == '.'
      ensures b[j] != '-'
    {
      assert h[k + 1 + j + 1] == '.';
    }
  }

  /** Every window after the first dot of a well-formed name holds a dot. */
  lemma {:induction false} WindowsOfRest(a: string, b: string)
    requires forall i :: 0 <= i <= |a + "." + b| - Window ==> DotInWindow(a + "." + b, i)
    ensures forall j :: 0 <= j <= |b| - Window ==> DotInWindow(b, j)
  {
    var h := a + "." + b;
    var k := |a|;
    forall j | 0 <= j <= |b| - Window
      ensures DotInWindow(b, j)
    {
      assert DotInWindow(h, k + 1 + j);
      assert h[k + 1 + j..k + 1 + j + Window] == b[j..j + Window];
    }
  }

  /** Every window of `a.b` holds a dot when `a` is short and every window of `b` does. */
  lemma {:induction false} WindowsOfJoin(a: string, b: string)
    requires |a| <= MaxLabelLength
    requires forall j :: 0 <= j <= |b| - Window ==> DotInWindow(b, j)
    ensures forall i :: 0 <= i <= |a + "." + b| - Window ==> DotInWindow(a + "." + b, i)
  {
    var h := a + "." + b;
    var k := |a|;
    forall i | 0 <= i <= |h| - Window
      ensures DotInWindow(h, i)
    {
      if i <= k {
        assert h[i..i + Window][k - i] == h[k] == '.';
      } else {
        assert DotInWindow(b, i - k - 1);
        assert h[i..i + Window] == b[i - k - 1..i - k - 1 + Window];
      }
    }
  }

  /** The neighbours of every dot of `a.b` are allowed when those of `b` are. */
  lemma {:induction false} DotNeighboursOfJoin(a: string, b: string)
    requires |a| > 0 && a[|a| - 1] != '-' && '.' !in a
    requires |b| > 0 && b[0] != '.' && b[0] != '-'
    requires forall j :: 0 <= j < |b| - 1 && b[j] == '.' ==> b[j + 1] != '.' && b[j + 1] != '-'
    requires forall j :: 0 <= j < |b| - 1 && b[j + 1] == '.' ==> b[j] != '-'
    ensures var h := a + "." + b;
      forall i :: 0 <= i < |h| - 1 && h[i] == '.' ==> h[i + 1] != '.' && h[i + 1] != '-'
    ensures var h := a + "." + b;
      forall i :: 0 <= i < |h| - 1 && h[i + 1] == '.' ==> h[i] != '-'
  {
    var h := a + "." + b;
    var k := |a|;
    assert forall j :: 0 <= j < k ==> h[j] == a[j];
    forall i | 0 <= i < |h| - 1 && h[i] == '.'
      ensures h[i + 1] != '.' && h[i + 1] != '-'
    {
      if i > k {
        assert h[i] == b[i - k - 1] && h[i + 1] == b[i - k];
      }
    }
    forall i | 0 <= i < |h| - 1 && h[i + 1] == '.'
      ensures h[i] != '-'
    {
      if i > k {
        assert h[i] == b[i - k - 1] && h[i + 1] == b[i - k];
      }
    }
  }

  /** A valid first label and a well-formed rest make `a.b` well formed. */
  lemma {:induction false} WellFormedJoinsAtDot(a: string, b: string)
    requires ValidLabel(a) && WellFormedName(b)
    ensures WellFormedName(a + "." + b)
  {
    var h := a + "." + b;
    WindowsOfJoin(a, b);
    DotNeighboursOfJoin(a, b);
    assert forall i :: 0 <= i < |h| ==> LabelChar(h[i]) || h[i] == '.' by {
      forall i | 0 <= i < |h|
        ensures LabelChar(h[i]) || h[i] == '.'
      {
        if i < |a| {
          assert h[i] == a[i];
        } else if i > |a| {
          assert h[i] == b[i - |a| - 1];
        }
      }
    }
    assert h[0] == a[0];
    assert h[|h| - 1] == b[|b| - 1];
  }

  /** The index of the first occurrence of `c` in `s`. */
  lemma {:induction false} FirstOccurrence(s: string, c: char) returns (k: nat)
    requires c in s
    ensures k < |s| && s[k] == c && c !in s[..k]
    decreases |s|
  {
    if s[0] == c {
      k := 0;
    } else {
      assert c in s[1..];
      var k' := FirstOccurrence(s[1..], c);
      k := k' + 1;
      assert s[..k] == s[..1] + s[1..][..k'];
    }
  }

  /**
   * All labels of `h` are valid exactly when `h` is well formed in the
   * character-level sense.
   */
  lemma {:induction false} LabelsValidIffWellFormed(h: string)
    ensures LabelsValid(h) <==> WellFormedName(h)
    decreases |h|
  {
    if '.' !in h {
      Labels.SplitWithoutSeparator(h, '.');
      assert Labels.Split(h, '.') == [h];
      SingleLabelWellFormed(h);
    } else {
      var k := FirstOccurrence(h, '.');
      var a, b := h[..k], h[k + 1..];
      assert h == a + "." + b;
      Labels.SplitAtFirstSeparator(a, b, '.');
      var parts := Labels.Split(h, '.');
      assert parts == [a] + Labels.Split(b, '.');
      assert LabelsValid(h) <==> ValidLabel(a) && LabelsValid(b);
      LabelsValidIffWellFormed(b);
      if WellFormedName(h) {
        WellFormedSplitsAtFirstDot(a, b);
      }
      if ValidLabel(a) && WellFormedName(b) {
        WellFormedJoinsAtDot(a, b);
      }
    }
  }

  /**
   * `is_valid_hostname` accepts a name exactly when it has 1 to 255
   * characters and, after one trailing dot is dropped, is well formed in the
   * character-level sense.
   */
  lemma AcceptedIffWellFormed(arg: string)
    ensures IsValidHostname(arg).Ok? <==>
              0 < |arg| <= MaxHostnameLength && WellFormedName(StripTrailingDot(arg))
  {
    if 0 < |arg| {
      LabelsValidIffWellFormed(StripTrailingDot(arg));
    }
  }

  /** Validating an already validated name changes nothing. */
  lemma ValidationIsIdempotent(arg: string)
    requires IsValidHostname(arg).Ok?
    ensures IsValidHostname(IsValidHostname(arg).value) == IsValidHostname(arg)
  {
    var h := IsValidHostname(arg).value;
    LabelsValidIffWellFormed(h);
  }

  /**
   * Two dots in a row leave an empty label, wherever they stand: in the
   * middle, as in `a..b`, or at the end, since only one trailing dot is
   * dropped.
   */
  lemma ConsecutiveDotsRejected(x: string, y: string)
    ensures IsValidHostname(x + ".." + y).Err?
  {
    var arg := x + ".." + y;
    if |arg| <= MaxHostnameLength {
      var s := StripTrailingDot(arg);
      assert s[|x|] == '.';
      assert |x| + 1 == |s| || s[|x| + 1] == '.';
      LabelsValidIffWellFormed(s);
    }
  }

  /** A lone dot strips to the empty name, whose only label is empty. */
  lemma LoneDotRejected()
    ensures IsValidHostname(".") == Err(InvalidDomain(""))
  {
    assert "" in Labels.Split("", '.');
  }

  /** A fully qualified name loses its root dot. */
  lemma FullyQualifiedExample()
    ensures IsValidHostname("example.com.") == Ok("example.com")
  {
    var labels := ["example", "com"];
    assert ValidLabel(labels[0]) && ValidLabel(labels[1]);
    assert Labels.Join(labels, '.') == "example.com";
    assert StripTrailingDot("example.com.") == "example.com";
    assert IsDottedLabels("example.com");
    AcceptedIffDottedLabels("example.com.");
  }

}

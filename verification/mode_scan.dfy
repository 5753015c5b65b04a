/**
 * The display-mode matching rule of the adapter query: a linear scan that
 * copies the refresh rate of every mode whose width and height both equal
 * the requested resolution. The scan never stops early, so the last match
 * wins; with no match the caller's refresh rate is left as it was.
 */
module ModeScan {
  import opened Dxgi

  /** A mode matches when both dimensions equal the request exactly. */
  predicate Matches(m: DisplayMode, width: uint32, height: uint32) {
    m.width == width && m.height == height
  }

  /** No mode of the list matches the request. */
  predicate NoMatch(modes: seq<DisplayMode>, width: uint32, height: uint32) {
    forall i :: 0 <= i < |modes| ==> !Matches(modes[i], width, height)
  }

  /** `i` is the highest index whose mode matches the request. */
  predicate IsLastMatch(modes: seq<DisplayMode>, width: uint32, height: uint32, i: int) {
    && 0 <= i < |modes|
    && Matches(modes[i], width, height)
    && forall j :: i < j < |modes| ==> !Matches(modes[j], width, height)
  }

  /**
   * The refresh rate the scan leaves behind, starting from `entry`: every
   * mode before the last one is processed first, then the last one
   * overwrites the result if it matches.
   */
  function ScanModes(modes: seq<DisplayMode>, width: uint32, height: uint32, entry: Rational): (r: Rational)
    ensures NoMatch(modes, width, height) ==> r == entry
    ensures forall i :: IsLastMatch(modes, width, height, i) ==> r == modes[i].refreshRate
    decreases |modes|
  {
    if |modes| == 0 then entry
    else
      var n := |modes| - 1;
      if Matches(modes[n], width, height) then
        modes[n].refreshRate
      else
        var earlier := ScanModes(modes[..n], width, height, entry);
        PrefixKeepsLastMatch(modes, width, height);
        earlier
  }

  /** When the final mode does not match, a last match of the list is a last match of its other modes. */
  lemma PrefixKeepsLastMatch(modes: seq<DisplayMode>, width: uint32, height: uint32)
    requires |modes| > 0 && !Matches(modes[|modes| - 1], width, height)
    ensures forall i :: IsLastMatch(modes, width, height, i) ==> IsLastMatch(modes[..|modes| - 1], width, height, i)
  {
  }

  /** Whenever some mode matches, exactly one index is the last match. */
  lemma {:induction false} LastMatchExists(modes: seq<DisplayMode>, width: uint32, height: uint32, k: int)
    requires 0 <= k < |modes| && Matches(modes[k], width, height)
    ensures exists i :: IsLastMatch(modes, width, height, i)
    ensures forall i, j :: IsLastMatch(modes, width, height, i) && IsLastMatch(modes, width, height, j) ==> i == j
    decreases |modes| - k
  {
    if forall j :: k < j < |modes| ==> !Matches(modes[j], width, height) {
      assert IsLastMatch(modes, width, height, k);
    } else {
      var j :| k < j < |modes| && Matches(modes[j], width, height);
      LastMatchExists(modes, width, height, j);
    }
  }

  /** One step of the scan: the last mode overwrites the result of the scan of the rest if it matches. */
  lemma ScanLast(modes: seq<DisplayMode>, width: uint32, height: uint32, entry: Rational)
    requires |modes| > 0
    ensures var n := |modes| - 1;
      ScanModes(modes, width, height, entry) ==
        if Matches(modes[n], width, height) then modes[n].refreshRate else ScanModes(modes[..n], width, height, entry)
  {
  }

  /** Scanning a concatenation is scanning the second part, starting from the first part's result. */
  lemma {:induction false} ScanConcat(a: seq<DisplayMode>, b: seq<DisplayMode>, width: uint32, height: uint32, entry: Rational)
    ensures ScanModes(a + b, width, height, entry) == ScanModes(b, width, height, ScanModes(a, width, height, entry))
    decreases |b|
  {
    if |b| == 0 {
      assert a + b == a;
    } else {
      var n := |b| - 1;
      assert (a + b)[..|a + b| - 1] == a + b[..n];
      assert (a + b)[|a + b| - 1] == b[n];
      ScanConcat(a, b[..n], width, height, entry);
      ScanLast(a + b, width, height, entry);
      ScanLast(b, width, height, ScanModes(a, width, height, entry));
    }
  }

  /**
   * A mode that fails to match (for instance one that agrees on only one
   * dimension) has no effect on the scan, wherever it sits in the list.
   */
  lemma NonMatchingModeIsIgnored(modes: seq<DisplayMode>, k: int, m: DisplayMode,
                                 width: uint32, height: uint32, entry: Rational)
    requires 0 <= k <= |modes|
    requires !Matches(m, width, height)
    ensures ScanModes(modes[..k] + [m] + modes[k..], width, height, entry) == ScanModes(modes, width, height, entry)
  {
    var front, back := modes[..k], modes[k..];
    assert modes == front + back;
    ScanLast(front + [m], width, height, entry);
    assert (front + [m])[..|front|] == front;
    ScanConcat(front + [m], back, width, height, entry);
    ScanConcat(front, back, width, height, entry);
  }

  /**
   * The imperative form of the scan: one pass over the mode list (the C
   * array the library fills, modelled as a sequence) that overwrites the
   * current refresh rate on every match and never breaks.
   */
  method ScanModeList(modes: ModeList, width: uint32, height: uint32, entry: Rational) returns (refresh: Rational)
    ensures refresh == ScanModes(modes, width, height, entry)
    ensures NoMatch(modes, width, height) ==> refresh == entry
    ensures forall i :: IsLastMatch(modes, width, height, i) ==> refresh == modes[i].refreshRate
  {
    refresh := entry;
    var modeIdx := 0;
    while modeIdx < |modes|
      invariant 0 <= modeIdx <= |modes|
      invariant refresh == ScanModes(modes[..modeIdx], width, height, entry)
    {
      assert modes[..modeIdx + 1][..modeIdx] == modes[..modeIdx];
      if modes[modeIdx].width == width && modes[modeIdx].height == height {
        refresh := modes[modeIdx].refreshRate;
      }
      modeIdx := modeIdx + 1;
    }
    assert modes[..modeIdx] == modes;
  }
}

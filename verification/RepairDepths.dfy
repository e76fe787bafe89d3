/** How deep a repair is nested, read off its title (`repairDepth` in `internal/runtime/service_repair.go`). */
module RepairDepths {
  import opened Text

  const MAX_REPAIR_DEPTH := 3
  const FIX := "Fix: "

  function RepairTitle(failed: string): string {
    FIX + failed
  }

  lemma {:induction false} TrimNoLonger(s: string)
    ensures |Trim(s)| <= |s|
    decreases |s|
  {
    if s != "" && IsSpace(s[0]) {
      TrimNoLonger(s[1..]);
    } else {
      TrimRightKeepsStart(s);
    }
  }

  function DepthOf(trimmed: string): nat
    decreases |trimmed|
  {
    if FIX <= trimmed then
      TrimNoLonger(trimmed[|FIX|..]);
      1 + DepthOf(Trim(trimmed[|FIX|..]))
    else 0
  }

  function RepairDepth(title: string): nat {
    DepthOf(Trim(title))
  }

  method CountRepairDepth(title: string) returns (depth: nat)
    ensures depth == RepairDepth(title)
  {
    depth := 0;
    var rest := Trim(title);
    while FIX <= rest
      invariant depth + DepthOf(rest) == RepairDepth(title)
      decreases |rest|
    {
      TrimNoLonger(rest[|FIX|..]);
      depth := depth + 1;
      rest := Trim(rest[|FIX|..]);
    }
  }

  /** The depth of a title: none without the prefix, otherwise one more than that of what follows it. */
  lemma DepthIs(title: string)
    ensures !("Fix: " <= Trim(title)) ==> RepairDepth(title) == 0
    ensures "Fix: " <= Trim(title) ==> RepairDepth(title) == 1 + RepairDepth(Trim(title)[5..])
  {
    assert |FIX| == 5;
  }

  lemma BlankFromRight(s: string)
    ensures TrimRight(s) == "" <==> Trim(s) == ""
  {
    TrimCommutes(s);
    TrimRightKeepsStart(s);
    var cut := TrimRight(s);
    if cut != "" {
      LastStays(cut);
    }
  }

  lemma {:induction false} LastStays(s: string)
    requires s != "" && !IsSpace(s[|s| - 1])
    ensures TrimLeft(s) != ""
  {
    if IsSpace(s[0]) {
      LastStays(s[1..]);
    }
  }

  lemma TrimAfterTrimRight(s: string)
    ensures Trim(TrimRight(s)) == Trim(s)
  {
    TrimCommutes(s);
    TrimYieldsTrimmed(s);
  }

  /** Trimming text that starts with a visible character only cuts on the right. */
  lemma TrimOfFix(failed: string)
    ensures Trim(RepairTitle(failed)) == if Trim(failed) == "" then "Fix:" else FIX + TrimRight(failed)
  {
    BlankFromRight(failed);
    TrimRightOfConcat(FIX, failed);
    assert RepairTitle(failed)[0] == 'F';
    assert TrimRight(FIX) == "Fix:" by {
      assert FIX[..4] == "Fix:" && FIX[4] == ' ';
      assert TrimRight("Fix:") == "Fix:";
    }
  }

  /** A repair is one deeper than what it repairs, exactly when the failed task's title is not blank. */
  lemma RepairIsOneDeeper(failed: string)
    ensures RepairDepth(RepairTitle(failed)) == 1 + RepairDepth(failed) <==> Trim(failed) != ""
  {
    TrimOfFix(failed);
    if Trim(failed) != "" {
      var trimmed := FIX + TrimRight(failed);
      assert trimmed[|FIX|..] == TrimRight(failed);
      TrimAfterTrimRight(failed);
    } else {
      assert !(FIX <= "Fix:");
    }
  }

  /** A repair's own title is never blank, so repairs of repairs keep counting. */
  lemma RepairTitleNotBlank(failed: string)
    ensures Trim(RepairTitle(failed)) != ""
  {
    TrimOfFix(failed);
  }
}

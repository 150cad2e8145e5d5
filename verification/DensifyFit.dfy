/** `_fit` of `tools/densify_summaries.py`: a tail that gives way entry by entry. */
module DensifyFit {
  import opened Text

  /** `s.split(",")`. */
  function Split(s: string): (parts: seq<string>)
    ensures parts != []
  {
    if s == "" then [""]
    else
      var later := Split(s[1..]);
      if s[0] == ',' then [""] + later else [[s[0]] + later[0]] + later[1..]
  }

  function CleanEntries(parts: seq<string>): seq<string> {
    if parts == [] then []
    else
      var e := PySpace.Trim(parts[0]);
      (if e != "" then [e] else []) + CleanEntries(parts[1..])
  }

  function Entries(tail: string): seq<string> {
    CleanEntries(Split(tail))
  }

  function Compose(head: string, joiner: string, entries: seq<string>): string {
    if entries == [] then head else head + joiner + Join(entries, ", ")
  }

  /** Entries kept whole, in order, as many as fit: `k` of them, or none when none fits. */
  ghost predicate KeepsMost(head: string, joiner: string, entries: seq<string>, cap: int, k: nat) {
    && k <= |entries|
    && (k > 0 ==> |Compose(head, joiner, entries[..k])| <= cap)
    && forall m :: k < m <= |entries| ==> |Compose(head, joiner, entries[..m])| > cap
  }

  method Fit(prefix: string, added: string, tail: string, cap: int, joiner: string)
    returns (text: string, trimmed: bool)
    ensures exists k: nat ::
      && KeepsMost(prefix + added, joiner, Entries(tail), cap, k)
      && text == ListTail.TrimEnd(Compose(prefix + added, joiner, Entries(tail)[..k]))
      && (trimmed <==> k < |Entries(tail)|)
  {
    var entries := Entries(tail);
    ghost var all := entries;
    trimmed := false;
    while true
      invariant |entries| <= |all| && entries == all[..|entries|]
      invariant trimmed <==> |entries| < |all|
      invariant forall m :: |entries| < m <= |all| ==> |Compose(prefix + added, joiner, all[..m])| > cap
      decreases |entries|
    {
      var candidate := prefix + added;
      if entries != [] {
        candidate := candidate + joiner + Join(entries, ", ");
      }
      if |candidate| <= cap || entries == [] {
        text := ListTail.TrimEnd(candidate);
        assert candidate == Compose(prefix + added, joiner, entries);
        assert KeepsMost(prefix + added, joiner, all, cap, |entries|);
        return;
      }
      assert entries == all[..|entries|];
      entries := entries[..|entries| - 1];
      trimmed := true;
    }
  }

  // ---- what that means -----------------------------------------------------------------

  /** More entries never make the text shorter, so no choice of a longer prefix was passed over. */
  lemma {:induction false} ComposeGrows(head: string, joiner: string, entries: seq<string>, k: nat)
    requires k < |entries|
    ensures |Compose(head, joiner, entries[..k])| <= |Compose(head, joiner, entries[..k + 1])|
    ensures k > 0 ==>
              |Compose(head, joiner, entries[..k + 1])| == |Compose(head, joiner, entries[..k])| + 2 + |entries[k]|
  {
    assert entries[..k + 1] == entries[..k] + [entries[k]];
    if k > 0 {
      JoinSnoc(entries[..k], entries[k], ", ");
    }
  }

  lemma {:induction false} ComposeGrowsTo(head: string, joiner: string, entries: seq<string>, j: nat, k: nat)
    requires j <= k <= |entries|
    ensures |Compose(head, joiner, entries[..j])| <= |Compose(head, joiner, entries[..k])|
    decreases k
  {
    if j < k {
      ComposeGrowsTo(head, joiner, entries, j, k - 1);
      ComposeGrows(head, joiner, entries, k - 1);
    }
  }

  /** Some entry is kept exactly when the first one fits. */
  lemma KeepsSome(head: string, joiner: string, entries: seq<string>, cap: int, k: nat)
    requires KeepsMost(head, joiner, entries, cap, k)
    ensures k > 0 <==> entries != [] && |Compose(head, joiner, entries[..1])| <= cap
  {
    if k > 0 {
      ComposeGrowsTo(head, joiner, entries, 1, k);
    }
  }

  /** Exactly when the result respects the cap: the words before the tail fit on their own, once
      stripped, or the first entry still fits behind them. */
  lemma FitRespectsCap(head: string, joiner: string, entries: seq<string>, cap: int, k: nat)
    requires KeepsMost(head, joiner, entries, cap, k)
    ensures |ListTail.TrimEnd(Compose(head, joiner, entries[..k]))| <= cap <==>
            |ListTail.TrimEnd(head)| <= cap || (entries != [] && |Compose(head, joiner, entries[..1])| <= cap)
  {
    var c := Compose(head, joiner, entries[..k]);
    var trail := ListTail.TrimEndSplits(c);
    KeepsSome(head, joiner, entries, cap, k);
    if k == 0 {
      assert c == head;
    }
  }

  /** The words before the tail survive unless they end in the characters the last strip cuts. */
  lemma FitKeepsHead(head: string, joiner: string, entries: seq<string>)
    requires head != "" && !ListTail.Has(head[|head| - 1])
    ensures head <= ListTail.TrimEnd(Compose(head, joiner, entries))
  {
    var rest := if entries == [] then "" else joiner + Join(entries, ", ");
    assert Compose(head, joiner, entries) == head + rest;
    StripKeepsHead(head, rest);
  }

  /** Exactly when something is dropped: the whole tail does not fit. */
  lemma TrimsLongTails(head: string, joiner: string, entries: seq<string>, cap: int, k: nat)
    requires KeepsMost(head, joiner, entries, cap, k)
    ensures k < |entries| <==> entries != [] && |Compose(head, joiner, entries)| > cap
  {
    assert entries[..|entries|] == entries;
  }

  /** A call that ends over its cap: all of the tail is gone, and the three characters before it stay. */
  method FitOverflows() returns (text: string, trimmed: bool)
    ensures text == "abc" && trimmed && |text| > 2
  {
    assert Entries("d") == ["d"] by {
      assert "d"[1..] == "" && Split("") == [""] && [""][1..] == [];
      assert ['d'] + "" == "d" && Split("d") == ["d"] + [];
      assert ["d"][1..] == [];
      PySpace.TrimTight("d");
      assert CleanEntries(["d"]) == ["d"] + CleanEntries([]);
    }
    text, trimmed := Fit("ab", "c", "d", 2, "; ");
    assert "ab" + "c" == "abc" && Compose("abc", "; ", ["d"][..1]) == "abc; d";
  }

  lemma {:induction false} StripKeepsHead(head: string, rest: string)
    ensures head != "" && !ListTail.Has(head[|head| - 1]) ==>
              |ListTail.TrimEnd(head + rest)| >= |head| && ListTail.TrimEnd(head + rest)[..|head|] == head
  {
    if rest == "" {
      assert head + rest == head;
    } else {
      assert (head + rest)[..|head + rest| - 1] == head + rest[..|rest| - 1];
      StripKeepsHead(head, rest[..|rest| - 1]);
    }
  }

  /** Cleaned entries carry neither a comma nor a blank end, so joining them loses nothing. */
  lemma {:induction false} CleanedEntries(parts: seq<string>)
    requires forall i :: 0 <= i < |parts| ==> ',' !in parts[i]
    ensures forall e :: e in CleanEntries(parts) ==> e != "" && ',' !in e && PySpace.Tight(e)
  {
    if parts != [] {
      CleanedEntries(parts[1..]);
      var lead, trail := PySpace.TrimSplits(parts[0]);
      assert forall c :: c in PySpace.Trim(parts[0]) ==> c in parts[0];
    }
  }

  // ---- the entries of a tail ---------------------------------------------------------------

  /** Splitting loses nothing: joined at the commas the parts are the text, and no part has one. */
  lemma {:induction false} SplitIs(s: string)
    ensures Join(Split(s), ",") == s
    ensures forall i :: 0 <= i < |Split(s)| ==> ',' !in Split(s)[i]
  {
    if s != "" {
      SplitIs(s[1..]);
      var later := Split(s[1..]);
      assert s == [s[0]] + s[1..];
      if s[0] == ',' {
        assert Split(s)[1..] == later;
      } else {
        assert Split(s)[1..] == later[1..] && Split(s)[0] == [s[0]] + later[0];
        assert |later| > 1 ==> Join(later, ",") == later[0] + "," + Join(later[1..], ",");
      }
    }
  }

  /** No entry is lost and none is moved: each part of the tail stands for itself, stripped, unless that leaves
      nothing of it. */
  lemma {:induction false} EntriesKeepAll(a: seq<string>, part: string, b: seq<string>)
    ensures CleanEntries(a + [part] + b) == CleanEntries(a) + CleanEntries([part]) + CleanEntries(b)
    ensures PySpace.Trim(part) != "" ==> CleanEntries([part]) == [PySpace.Trim(part)]
    ensures PySpace.Trim(part) == "" ==> CleanEntries([part]) == []
  {
    assert [part][1..] == [];
    if a == [] {
      assert a + [part] + b == [part] + b && ([part] + b)[1..] == b;
    } else {
      EntriesKeepAll(a[1..], part, b);
      assert (a + [part] + b)[1..] == a[1..] + [part] + b;
    }
  }
}

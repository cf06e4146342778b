/**
 * Phone-number grouping of `generate_receipt`: the number is shown as its
 * first three characters, the next three and the rest, separated by single
 * spaces. There is no length check: short numbers give empty groups.
 */
module PhoneFormat {
  import opened Strings

  function Min(a: nat, b: nat): nat {
    if a < b then a else b
  }

  /** Python's `s[i:j]` for `0 <= i <= j`: both bounds clamped to the length. */
  function Slice(s: string, i: nat, j: nat): (r: string)
    requires i <= j
    ensures |r| == Min(j, |s|) - Min(i, |s|)
  {
    s[Min(i, |s|)..Min(j, |s|)]
  }

  /** Python's `s[i:]`. */
  function SliceFrom(s: string, i: nat): (r: string)
    ensures |r| == |s| - Min(i, |s|)
  {
    s[Min(i, |s|)..]
  }

  /** `f"{n[:3]} {n[3:6]} {n[6:]}"`. */
  function FormatPhone(n: string): (r: string)
    ensures |r| == |n| + 2
  {
    Slice(n, 0, 3) + " " + Slice(n, 3, 6) + " " + SliceFrom(n, 6)
  }

  /** Where the first inserted space sits, for an input of length `m`. */
  function FirstGap(m: nat): nat {
    Min(3, m)
  }

  /** Where the second inserted space sits, for an input of length `m`. */
  function SecondGap(m: nat): nat {
    Min(6, m) + 1
  }

  function DeleteAt(s: string, i: nat): (r: string)
    requires i < |s|
    ensures |r| == |s| - 1
  {
    s[..i] + s[i + 1..]
  }

  /** A text with a space at each of the two places the grouping puts one. */
  predicate IsGrouped(r: string) {
    |r| >= 2 && r[FirstGap(|r| - 2)] == ' ' && r[SecondGap(|r| - 2)] == ' '
  }

  /** Deletes the two separators that the grouping inserted. */
  function Ungroup(r: string): (n: string)
    requires |r| >= 2
    ensures |n| == |r| - 2
  {
    var m := |r| - 2;
    DeleteAt(DeleteAt(r, SecondGap(m)), FirstGap(m))
  }

  /** Character `i` of the formatted number: a space at each gap, the input elsewhere. */
  lemma FormatPhoneAt(n: string, i: nat)
    requires i < |n| + 2
    ensures var g1, g2 := FirstGap(|n|), SecondGap(|n|);
            FormatPhone(n)[i] == if i < g1 then n[i]
                                 else if i == g1 then ' '
                                 else if i < g2 then n[i - 1]
                                 else if i == g2 then ' '
                                 else n[i - 2]
  {
    var a, b, c := Slice(n, 0, 3), Slice(n, 3, 6), SliceFrom(n, 6);
    var r := a + [' '] + b + [' '] + c;
    assert FormatPhone(n) == r;
    assert |a| == FirstGap(|n|) && |a| + |b| + 1 == SecondGap(|n|);
  }

  /** Character `j` of the ungrouped text: gaps skipped. */
  lemma UngroupAt(r: string, j: nat)
    requires |r| >= 2 && j < |r| - 2
    ensures var g1, g2 := FirstGap(|r| - 2), SecondGap(|r| - 2);
            Ungroup(r)[j] == if j < g1 then r[j] else if j + 1 < g2 then r[j + 1] else r[j + 2]
  {
    var m := |r| - 2;
    var g1, g2 := FirstGap(m), SecondGap(m);
    var d := DeleteAt(r, g2);
    DeleteAtIndex(d, g1, j);
    var k := if j < g1 then j else j + 1;
    DeleteAtIndex(r, g2, k);
  }

  /** Character `j` after deleting position `i`. */
  lemma DeleteAtIndex(s: string, i: nat, j: nat)
    requires i < |s| && j < |s| - 1
    ensures DeleteAt(s, i)[j] == if j < i then s[j] else s[j + 1]
  {
  }

  /** The grouping puts a space at each of the two gap positions. */
  lemma FormatPhoneGrouped(n: string)
    ensures IsGrouped(FormatPhone(n))
  {
    FormatPhoneAt(n, FirstGap(|n|));
    FormatPhoneAt(n, SecondGap(|n|));
  }

  /** Deleting the two inserted spaces gives back the number, whatever its length. */
  lemma UngroupFormat(n: string)
    ensures Ungroup(FormatPhone(n)) == n
  {
    var r := FormatPhone(n);
    forall j | 0 <= j < |n|
      ensures Ungroup(r)[j] == n[j]
    {
      UngroupAt(r, j);
      var g1, g2 := FirstGap(|n|), SecondGap(|n|);
      if j < g1 {
        FormatPhoneAt(n, j);
      } else if j + 1 < g2 {
        FormatPhoneAt(n, j + 1);
      } else {
        FormatPhoneAt(n, j + 2);
      }
    }
  }

  /** Every text grouped this way is the grouping of its ungrouped form. */
  lemma FormatUngroup(r: string)
    requires IsGrouped(r)
    ensures FormatPhone(Ungroup(r)) == r
  {
    var n := Ungroup(r);
    var g1, g2 := FirstGap(|n|), SecondGap(|n|);
    forall i | 0 <= i < |r|
      ensures FormatPhone(n)[i] == r[i]
    {
      FormatPhoneAt(n, i);
      if i < g1 {
        UngroupAt(r, i);
      } else if g1 < i < g2 {
        UngroupAt(r, i - 1);
      } else if g2 < i {
        UngroupAt(r, i - 2);
      }
    }
  }

  lemma RemoveSpaces3(a: string, b: string, c: string)
    requires ' ' !in a && ' ' !in b && ' ' !in c
    ensures Remove(a + [' '] + b + [' '] + c, ' ') == a + b + c
  {
    var sp: string := [' '];
    assert Remove(sp, ' ') == [];
    var x1 := a + sp;
    var x2 := x1 + b;
    var x3 := x2 + sp;
    RemoveAbsent(a, ' ');
    RemoveAppend(a, sp, ' ');
    assert Remove(x1, ' ') == a;
    RemoveAbsent(b, ' ');
    RemoveAppend(x1, b, ' ');
    assert Remove(x2, ' ') == a + b;
    RemoveAppend(x2, sp, ' ');
    assert Remove(x3, ' ') == a + b;
    RemoveAbsent(c, ' ');
    RemoveAppend(x3, c, ' ');
  }

  /** Without spaces in the input, the grouping keeps every character in order. */
  lemma FormatPhoneKeepsCharacters(n: string)
    requires ' ' !in n
    ensures Remove(FormatPhone(n), ' ') == n
  {
    var a, b, c := Slice(n, 0, 3), Slice(n, 3, 6), SliceFrom(n, 6);
    assert a + b + c == n;
    RemoveSpaces3(a, b, c);
  }

  /** A ten-digit number shows as "ddd ddd dddd". */
  lemma FormatPhoneTen(n: string)
    requires |n| == 10
    ensures var r := FormatPhone(n);
            r == n[..3] + " " + n[3..6] + " " + n[6..] && r[3] == ' ' && r[7] == ' '
  {
  }
}

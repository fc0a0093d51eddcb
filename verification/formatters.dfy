/** The integer and string formatters shared by the views: durations
    and clock times, percentages, completion rates, proof status labels,
    postal addresses and shortened addresses and hashes. Seconds and
    counts are naturals. */
module Formatters {
  import opened Seqs
  import opened Numbers
  import opened Text
  import opened Options

  // ----- durations -----

  /** Hours, minutes and seconds of a number of seconds. */
  datatype Hms = Hms(h: nat, m: nat, s: nat)

  function Split(total: nat): (t: Hms)
    ensures 3600 * t.h + 60 * t.m + t.s == total
    ensures t.m < 60 && t.s < 60
  {
    Hms(total / 3600, (total % 3600) / 60, total % 60)
  }

  /** The split is the only one with minutes and seconds below 60. */
  lemma SplitUnique(total: nat, t: Hms)
    requires 3600 * t.h + 60 * t.m + t.s == total && t.m < 60 && t.s < 60
    ensures Split(total) == t
  {
    var u := Split(total);
    assert 60 * t.m + t.s < 3600;
    assert 60 * u.m + u.s < 3600;
    assert t.h == u.h;
    assert t.m == u.m;
  }

  /** `formatDuration`: "Hh Mm" when there are hours (seconds are
      dropped), else "Mm Ss" when there are minutes, else "Ss". */
  function FormatDuration(total: nat): (r: string)
    ensures Split(total).h > 0 ==>
      r == NatToString(Split(total).h) + "h " + NatToString(Split(total).m) + "m"
    ensures Split(total).h == 0 && Split(total).m > 0 ==>
      r == NatToString(Split(total).m) + "m " + NatToString(Split(total).s) + "s"
    ensures total < 60 ==> r == NatToString(total) + "s"
  {
    var t := Split(total);
    if t.h > 0 then NatToString(t.h) + "h " + NatToString(t.m) + "m"
    else if t.m > 0 then NatToString(t.m) + "m " + NatToString(t.s) + "s"
    else NatToString(t.s) + "s"
  }

  /** From one hour up the seconds do not show: every duration within
      the same minute prints the same. */
  lemma FormatDurationIgnoresSecondsAfterAnHour(total: nat)
    requires total >= 3600
    ensures FormatDuration(total) == FormatDuration(total - total % 60)
  {
    var a, b := Split(total), Split(total - total % 60);
    SplitUnique(total - total % 60, Hms(a.h, a.m, 0));
  }

  /** `String(n).padStart(2, '0')`. */
  function Padded(n: nat): (r: string)
    ensures |r| >= 2 && AllDigits(r) && DigitsValue(r) == n
    ensures n < 100 ==> |r| == 2
    ensures n < 10 ==> r == "0" + NatToString(n)
    ensures n >= 10 ==> r == NatToString(n)
  {
    var d := NatToString(n);
    NatToStringRoundTrip(n);
    if |d| == 1 then
      LeadingZeroValue(d);
      assert Pad2(d) == "0" + d;
      Pad2(d)
    else
      Pad2(d)
  }

  /** `formatTimeRemaining`: "HH:MM:SS" when there are hours, else
      "MM:SS", every field zero-padded to two digits. Reading the fields
      back gives the number of seconds, field by field as `Split` cuts
      it, and the hours carry no zero beyond the padding. */
  function FormatTimeRemaining(total: nat): (r: string)
    ensures Split(total).h == 0 ==> ReadsAsMinSec(r, total)
    ensures Split(total).h == 0 ==> MinSecFields(r, Split(total))
    ensures Split(total).h > 0 ==> ReadsAsHourMinSec(r, total)
    ensures Split(total).h > 0 ==> HourMinSecFields(r, Split(total))
    ensures Split(total).h > 0 && |r| > 8 ==> r[0] != '0'
  {
    var t := Split(total);
    if t.h > 0 then Clock3(t) else Clock2(t)
  }

  /** The two fields of "MM:SS" read as the minutes and seconds of `t`. */
  predicate MinSecFields(r: string, t: Hms) {
    && |r| == 5 && AllDigits(r[..2]) && AllDigits(r[3..])
    && DigitsValue(r[..2]) == t.m && DigitsValue(r[3..]) == t.s
  }

  /** The three fields of "H..:MM:SS" read as the hours, minutes and
      seconds of `t`. */
  predicate HourMinSecFields(r: string, t: Hms) {
    && |r| >= 8
    && AllDigits(r[..|r| - 6]) && AllDigits(r[|r| - 5..|r| - 3]) && AllDigits(r[|r| - 2..])
    && DigitsValue(r[..|r| - 6]) == t.h
    && DigitsValue(r[|r| - 5..|r| - 3]) == t.m
    && DigitsValue(r[|r| - 2..]) == t.s
  }

  /** "MM:SS", both fields two digits, worth `total` seconds. */
  predicate ReadsAsMinSec(r: string, total: nat) {
    && |r| == 5 && r[2] == ':'
    && AllDigits(r[..2]) && AllDigits(r[3..])
    && 60 * DigitsValue(r[..2]) + DigitsValue(r[3..]) == total
  }

  /** "H..:MM:SS", hours at least two digits, worth `total` seconds. */
  predicate ReadsAsHourMinSec(r: string, total: nat) {
    && |r| >= 8 && r[|r| - 6] == ':' && r[|r| - 3] == ':'
    && AllDigits(r[..|r| - 6]) && AllDigits(r[|r| - 5..|r| - 3]) && AllDigits(r[|r| - 2..])
    && 3600 * DigitsValue(r[..|r| - 6]) + 60 * DigitsValue(r[|r| - 5..|r| - 3])
         + DigitsValue(r[|r| - 2..]) == total
  }

  /** "mm:ss" from minutes and seconds below 60: both fields read back. */
  function Clock2(t: Hms): (r: string)
    requires t.m < 60 && t.s < 60
    ensures ReadsAsMinSec(r, 60 * t.m + t.s)
    ensures MinSecFields(r, t)
  {
    var mm, ss := Padded(t.m), Padded(t.s);
    ReadClock2(mm, ss, t.m, t.s);
    mm + ":" + ss
  }

  /** "hh:mm:ss" from hours and minutes and seconds below 60: every field
      reads back, and the hours carry no zero beyond the padding. */
  function Clock3(t: Hms): (r: string)
    requires t.m < 60 && t.s < 60
    ensures ReadsAsHourMinSec(r, 3600 * t.h + 60 * t.m + t.s)
    ensures HourMinSecFields(r, t)
    ensures |r| > 8 ==> r[0] != '0'
  {
    var hh, mm, ss := Padded(t.h), Padded(t.m), Padded(t.s);
    ReadClock3(hh, mm, ss, t.h, t.m, t.s);
    assert |hh| > 2 ==> hh[0] != '0';
    hh + ":" + mm + ":" + ss
  }

  /** The fields of "mm:ss" read back as minutes and seconds. */
  lemma ReadClock2(mm: string, ss: string, m: nat, s: nat)
    requires |mm| == 2 && |ss| == 2 && AllDigits(mm) && AllDigits(ss)
    requires DigitsValue(mm) == m && DigitsValue(ss) == s
    ensures ReadsAsMinSec(mm + ":" + ss, 60 * m + s)
    ensures (mm + ":" + ss)[..2] == mm && (mm + ":" + ss)[3..] == ss
  {
    var r := mm + ":" + ss;
    assert r[..2] == mm && r[3..] == ss;
  }

  /** The fields of "hh:mm:ss" read back as hours, minutes and seconds. */
  lemma ReadClock3(hh: string, mm: string, ss: string, h: nat, m: nat, s: nat)
    requires |hh| >= 2 && |mm| == 2 && |ss| == 2 && AllDigits(hh) && AllDigits(mm) && AllDigits(ss)
    requires DigitsValue(hh) == h && DigitsValue(mm) == m && DigitsValue(ss) == s
    ensures ReadsAsHourMinSec(hh + ":" + mm + ":" + ss, 3600 * h + 60 * m + s)
    ensures var r := hh + ":" + mm + ":" + ss;
      r[..|r| - 6] == hh && r[|r| - 5..|r| - 3] == mm && r[|r| - 2..] == ss && r[0] == hh[0]
  {
    var r := hh + ":" + mm + ":" + ss;
    assert r[..|r| - 6] == hh;
    assert r[|r| - 5..|r| - 3] == mm;
    assert r[|r| - 2..] == ss;
  }

  /** "M:SS": whole minutes, unpadded, then seconds padded to two digits
      (the quiz timer's `formatTime` and the quiz history's
      `formatDuration`). Reading it back gives the number of seconds. */
  function MinutesSeconds(total: nat): (r: string)
    ensures |r| >= 4 && r[|r| - 3] == ':'
    ensures AllDigits(r[..|r| - 3]) && AllDigits(r[|r| - 2..])
    ensures r[..|r| - 3] == NatToString(total / 60)
    ensures DigitsValue(r[..|r| - 3]) == total / 60 && DigitsValue(r[|r| - 2..]) == total % 60
    ensures 60 * DigitsValue(r[..|r| - 3]) + DigitsValue(r[|r| - 2..]) == total
  {
    var q, s := total / 60, total % 60;
    assert 60 * q + s == total;
    var m := NatToString(q);
    NatToStringRoundTrip(q);
    var ss := Padded(s);
    assert |ss| == 2;
    var r := m + ":" + ss;
    assert r[..|r| - 3] == m && r[|r| - 2..] == ss;
    assert DigitsValue(m) == q && DigitsValue(ss) == s;
    r
  }

  // ----- progress and rates -----

  /** `formatProgress`: "0%" for an empty total, else the rounded
      percentage followed by "%". */
  function FormatProgress(current: nat, total: nat): (r: string)
    ensures |r| >= 2 && r[|r| - 1] == '%' && AllDigits(r[..|r| - 1])
    ensures total == 0 ==> r == "0%"
    ensures total > 0 ==>
      var v := DigitsValue(r[..|r| - 1]);
      2 * total * v <= 200 * current + total < 2 * total * (v + 1)
    ensures total > 0 && current <= total ==> DigitsValue(r[..|r| - 1]) <= 100
    ensures |r| > 2 ==> r[0] != '0'
  {
    if total == 0 then
      assert "0%"[..1] == "0";
      "0%"
    else
      var p := Percent(current, total);
      var d := NatToString(p);
      NatToStringRoundTrip(p);
      var r := d + "%";
      assert r[..|r| - 1] == d;
      r
  }

  /** `formatCompletionRate`: "No data" for an empty total, else
      "c/t completed", from which both numbers can be read back. */
  function FormatCompletionRate(completed: nat, total: nat): (r: string)
    ensures total == 0 ==> r == "No data"
    ensures total > 0 ==>
      var k := |NatToString(completed)|;
      var l := |NatToString(total)|;
      && |r| == k + 1 + l + 10 && r[k] == '/'
      && AllDigits(r[..k]) && DigitsValue(r[..k]) == completed
      && AllDigits(r[k + 1..k + 1 + l]) && DigitsValue(r[k + 1..k + 1 + l]) == total
      && r[k + 1 + l..] == " completed"
  {
    if total == 0 then "No data"
    else
      var c, t := NatToString(completed), NatToString(total);
      NatToStringRoundTrip(completed);
      NatToStringRoundTrip(total);
      var r := c + "/" + t + " completed";
      assert r[..|c|] == c && r[|c| + 1..|c| + 1 + |t|] == t;
      r
  }

  // ----- proof status -----

  const PendingLabel := "Pending Review"
  const GeneratingLabel := "Generating Proof"
  const VerifiedLabel := "Verified \U{2713}"
  const FailedLabel := "Generation Failed"

  /** `formatProofStatus`: the four known statuses, in any letter case,
      get their label; anything else is returned as given. */
  function FormatProofStatus(status: string): (r: string)
    ensures ToLower(status) == "pending" ==> r == PendingLabel
    ensures ToLower(status) == "generating" ==> r == GeneratingLabel
    ensures ToLower(status) == "verified" ==> r == VerifiedLabel
    ensures ToLower(status) == "failed" ==> r == FailedLabel
    ensures ToLower(status) !in {"pending", "generating", "verified", "failed"} ==> r == status
  {
    var key := ToLower(status);
    if key == "pending" then PendingLabel
    else if key == "generating" then GeneratingLabel
    else if key == "verified" then VerifiedLabel
    else if key == "failed" then FailedLabel
    else status
  }

  /** Only letter case matters for a known status, and labelling a label
      again changes nothing. */
  lemma FormatProofStatusProperties(a: string, b: string)
    ensures ToLower(a) == ToLower(b) && ToLower(a) in {"pending", "generating", "verified", "failed"} ==>
      FormatProofStatus(a) == FormatProofStatus(b)
    ensures FormatProofStatus(FormatProofStatus(a)) == FormatProofStatus(a)
  {
    LabelsAreNotStatuses();
  }

  /** No label, lower-cased, is one of the known statuses. */
  lemma LabelsAreNotStatuses()
    ensures forall l | l in {PendingLabel, GeneratingLabel, VerifiedLabel, FailedLabel} ::
      ToLower(l) !in {"pending", "generating", "verified", "failed"}
  {
    assert ToLower(VerifiedLabel)[0] == 'v';
    assert |ToLower(PendingLabel)| == 14 && |ToLower(GeneratingLabel)| == 16 && |ToLower(FailedLabel)| == 17;
  }

  // ----- addresses -----

  datatype Address = Address(line1: string, line2: Option<string>, city: string, country: string, postalCode: string)

  predicate NonEmpty(s: string) {
    s != ""
  }

  /** The parts in print order: line 1, line 2, city, postal code, country. */
  function AddressParts(a: Address): seq<string> {
    [a.line1, a.line2.GetOr(""), a.city, a.postalCode, a.country]
  }

  /** `formatAddress`: the non-empty parts, in order, joined by ", ".
      Equivalently, reading the parts left to right and appending each
      non-empty one, after a ", " unless it is the first. */
  function FormatAddress(a: Address): (r: string)
    ensures r == SkipEmptyFold("", AddressParts(a))
  {
    SkipEmptyFoldIsJoin(AddressParts(a));
    Join(Filter(AddressParts(a), NonEmpty), ", ")
  }

  /** One step of the left-to-right reading: an empty part is skipped, the
      first non-empty part starts the text, later ones follow a ", ". */
  function AppendPart(acc: string, p: string): string {
    if p == "" then acc else if acc == "" then p else acc + ", " + p
  }

  function SkipEmptyFold(acc: string, parts: seq<string>): string
    decreases parts
  {
    if parts == [] then acc else SkipEmptyFold(AppendPart(acc, parts[0]), parts[1..])
  }

  /** Folding after some text has been written continues it with ", "
      and the joined non-empty parts. */
  lemma {:induction false} SkipEmptyFoldFrom(acc: string, parts: seq<string>)
    requires acc != ""
    ensures SkipEmptyFold(acc, parts) ==
      if Filter(parts, NonEmpty) == [] then acc else acc + ", " + Join(Filter(parts, NonEmpty), ", ")
    decreases parts
  {
    if parts != [] {
      var p, rest := parts[0], parts[1..];
      var f := Filter(rest, NonEmpty);
      if p == "" {
        assert AppendPart(acc, p) == acc;
        assert Filter(parts, NonEmpty) == f;
        SkipEmptyFoldFrom(acc, rest);
      } else {
        var acc' := acc + ", " + p;
        assert AppendPart(acc, p) == acc';
        assert SkipEmptyFold(acc, parts) == SkipEmptyFold(acc', rest);
        assert Filter(parts, NonEmpty) == [p] + f;
        SkipEmptyFoldFrom(acc', rest);
        if f != [] {
          var a, j := acc + ", ", Join(f, ", ");
          calc {
            acc' + ", " + j;
            == { SeqAssoc(a, p, ", "); }
            (a + (p + ", ")) + j;
            == { SeqAssoc(a, p + ", ", j); }
            a + (p + ", " + j);
            == { JoinCons(p, f, ", "); }
            a + Join([p] + f, ", ");
          }
        }
      }
    }
  }

  lemma JoinCons(p: string, f: seq<string>, sep: string)
    requires f != []
    ensures Join([p] + f, sep) == p + sep + Join(f, sep)
  {
    assert ([p] + f)[1..] == f;
  }

  /** The fold from nothing is the join of the non-empty parts. */
  lemma {:induction false} SkipEmptyFoldIsJoin(parts: seq<string>)
    ensures SkipEmptyFold("", parts) == Join(Filter(parts, NonEmpty), ", ")
  {
    if parts != [] {
      var p, rest := parts[0], parts[1..];
      if p == "" {
        SkipEmptyFoldIsJoin(rest);
      } else {
        SkipEmptyFoldFrom(p, rest);
        var f := Filter(rest, NonEmpty);
        assert Filter(parts, NonEmpty) == [p] + f;
        if f != [] {
          JoinCons(p, f, ", ");
        }
      }
    }
  }

  /** No non-empty part of an address is lost. */
  lemma FormatAddressIncludesParts(a: Address)
    ensures forall p | p in AddressParts(a) :: p == "" || Includes(FormatAddress(a), p)
  {
    var parts := Filter(AddressParts(a), NonEmpty);
    forall p | p in AddressParts(a) && p != "" ensures Includes(FormatAddress(a), p) {
      assert p in parts;
      JoinIncludes(parts, ", ", p);
    }
  }

  /** Every part of a joined list occurs in the result. */
  lemma {:induction false} JoinIncludes(parts: seq<string>, sep: string, p: string)
    requires p in parts
    ensures Includes(Join(parts, sep), p)
  {
    var j := Join(parts, sep);
    if |parts| == 1 {
      assert OccursAt(j, p, 0);
    } else if parts[0] == p {
      assert j == p + sep + Join(parts[1..], sep);
      assert j[..|p|] == p;
      assert OccursAt(j, p, 0);
    } else {
      JoinIncludes(parts[1..], sep, p);
      var rest := Join(parts[1..], sep);
      var i :| 0 <= i <= |rest| && OccursAt(rest, p, i);
      var off := |parts[0]| + |sep|;
      assert j == parts[0] + sep + rest;
      assert j[off + i..off + i + |p|] == rest[i..i + |p|];
      assert OccursAt(j, p, off + i);
    }
  }

  /** A full address prints all five parts; an address of empty parts
      prints nothing. */
  lemma FormatAddressExtremes(a: Address)
    ensures (forall p | p in AddressParts(a) :: p != "") ==>
      FormatAddress(a) == a.line1 + ", " + a.line2.GetOr("") + ", " + a.city + ", " + a.postalCode + ", " + a.country
    ensures (forall p | p in AddressParts(a) :: p == "") ==> FormatAddress(a) == ""
  {
    var ps := AddressParts(a);
    if forall p | p in ps :: p != "" {
      assert forall i | 0 <= i < |ps| :: NonEmpty(ps[i]) by {
        forall i | 0 <= i < |ps| ensures NonEmpty(ps[i]) {
          assert ps[i] in ps;
        }
      }
      FilterKeepsAll(ps, NonEmpty);
      JoinFive(a.line1, a.line2.GetOr(""), a.city, a.postalCode, a.country, ", ");
    }
    if forall p | p in ps :: p == "" {
      forall i | 0 <= i < |ps| ensures !NonEmpty(ps[i]) {
        assert ps[i] in ps;
      }
      CountZero(ps, NonEmpty);
    }
  }

  lemma JoinFive(p0: string, p1: string, p2: string, p3: string, p4: string, sep: string)
    ensures Join([p0, p1, p2, p3, p4], sep) == p0 + sep + p1 + sep + p2 + sep + p3 + sep + p4
  {
    var ps := [p0, p1, p2, p3, p4];
    assert ps[1..] == [p1, p2, p3, p4];
    assert ps[1..][1..] == [p2, p3, p4];
    assert ps[1..][1..][1..] == [p3, p4];
    assert ps[1..][1..][1..][1..] == [p4];
    assert Join([p3, p4], sep) == p3 + sep + p4;
    assert Join([p2, p3, p4], sep) == p2 + sep + (p3 + sep + p4);
    assert Join([p1, p2, p3, p4], sep) == p1 + sep + (p2 + sep + (p3 + sep + p4));
  }

  /** JavaScript `s.substring(a, b)`: both ends clamped into [0, |s|],
      swapped when out of order. */
  function Substring(s: string, a: int, b: int): (r: string)
    ensures 0 <= a <= b <= |s| ==> r == s[a..b]
    ensures |r| <= |s|
  {
    var x := if a < 0 then 0 else if a > |s| then |s| else a;
    var y := if b < 0 then 0 else if b > |s| then |s| else b;
    if x <= y then s[x..y] else s[y..x]
  }

  /** `formatShortAddress`: unchanged when it fits; otherwise cut so that
      with "..." appended it is exactly `maxLength` long, or just "..."
      when `maxLength` is below 3. */
  function FormatShortAddress(address: string, maxLength: int): (r: string)
    ensures |address| <= maxLength ==> r == address
    ensures |address| > maxLength >= 3 ==>
      |r| == maxLength && r[..maxLength - 3] == address[..maxLength - 3] && r[maxLength - 3..] == "..."
    ensures |address| > maxLength && maxLength < 3 ==> r == "..."
  {
    if |address| <= maxLength then address
    else Substring(address, 0, maxLength - 3) + "..."
  }

  /** `formatHash`: empty for an empty hash, unchanged when at most twice
      `length` long, else the first and last `length` characters around
      "...". */
  function FormatHash(hash: string, length: int): (r: string)
    ensures hash == "" ==> r == ""
    ensures hash != "" && |hash| <= 2 * length ==> r == hash
    ensures hash != "" && |hash| > 2 * length && length >= 0 ==>
      && |r| == 2 * length + 3
      && r[..length] == hash[..length]
      && r[length..length + 3] == "..."
      && r[length + 3..] == hash[|hash| - length..]
    ensures hash != "" && length < 0 ==> r == "..."
  {
    if hash == "" then ""
    else if |hash| <= 2 * length then hash
    else Substring(hash, 0, length) + "..." + Substring(hash, |hash| - length, |hash|)
  }

  /** `formatHash` with its default length of 8. */
  function FormatHashDefault(hash: string): (r: string)
    ensures |hash| > 16 ==> |r| == 19
    ensures |hash| <= 16 ==> r == hash
  {
    FormatHash(hash, 8)
  }

  /** `formatTransactionHash`: six characters at each end. */
  function FormatTransactionHash(hash: string): (r: string)
    ensures |hash| > 12 ==> |r| == 15 && r[..6] == hash[..6] && r[9..] == hash[|hash| - 6..]
    ensures |hash| <= 12 ==> r == hash
  {
    FormatHash(hash, 6)
  }

  /** Shortening is idempotent: a shortened hash is no longer than twice
      the length plus three, and shortening an already short one leaves it. */
  lemma FormatHashIdempotent(hash: string, length: nat)
    ensures FormatHash(FormatHash(hash, length), length) == FormatHash(hash, length)
  {
  }
}

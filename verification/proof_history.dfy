/** The proof history page: proofs filtered by a text search and by
    status and circuit, sorted by the chosen column, counted per status,
    with the list of circuits in use and the success rate. Creation
    dates are integer timestamps. */
module ProofHistory {
  import opened Options
  import opened Seqs
  import opened Numbers
  import opened Text
  import opened Ordering

  datatype ProofStatus = Pending | Generating | Verified | Failed

  function StatusName(s: ProofStatus): string {
    match s
    case Pending => "Pending"
    case Generating => "Generating"
    case Verified => "Verified"
    case Failed => "Failed"
  }

  datatype Proof = Proof(id: string, title: string, description: string, status: ProofStatus, createdAt: int, circuit: string)

  /** The page's filter controls. */
  datatype Controls = Controls(searchTerm: string, statusFilter: string, circuitFilter: string, sortBy: string)

  /** Kept when the search term occurs, ignoring case, in the title or
      the description, and each of the status and circuit filters is
      "all" or matches. */
  predicate Matches(c: Controls, p: Proof) {
    && (IncludesIgnoreCase(p.title, c.searchTerm) || IncludesIgnoreCase(p.description, c.searchTerm))
    && (c.statusFilter == "all" || StatusName(p.status) == c.statusFilter)
    && (c.circuitFilter == "all" || p.circuit == c.circuitFilter)
  }

  function Keep(c: Controls): Proof -> bool {
    p => Matches(c, p)
  }

  function Title(p: Proof): string { p.title }
  function Status(p: Proof): string { StatusName(p.status) }
  function Circuit(p: Proof): string { p.circuit }
  function CreatedAt(p: Proof): int { p.createdAt }

  /** "title", "status" and "circuit" sort alphabetically on that
      column; anything else sorts the newest first. */
  function Order(sortBy: string): ((Proof, Proof) -> bool) {
    if sortBy == "title" then AscendingText(Title)
    else if sortBy == "status" then AscendingText(Status)
    else if sortBy == "circuit" then AscendingText(Circuit)
    else Descending(CreatedAt)
  }

  lemma OrderPreorder(sortBy: string)
    ensures Total(Order(sortBy)) && Transitive(Order(sortBy))
  {
    AscendingTextPreorder(Title);
    AscendingTextPreorder(Status);
    AscendingTextPreorder(Circuit);
    DescendingPreorder(CreatedAt);
  }

  /** The proofs shown: exactly the matching ones, each as often as in
      the list, in the order of the sort column. */
  function FilteredProofs(proofs: seq<Proof>, c: Controls): (r: seq<Proof>)
    ensures multiset(r) == multiset(Filter(proofs, Keep(c)))
    ensures forall p :: p in r <==> p in proofs && Matches(c, p)
    ensures SortedBy(r, Order(c.sortBy))
  {
    var kept := Filter(proofs, Keep(c));
    OrderPreorder(c.sortBy);
    SortBySorted(kept, Order(c.sortBy));
    var r := SortBy(kept, Order(c.sortBy));
    SameMembers(r, kept);
    r
  }

  /** `clearFilters`: empty search, every status and circuit, newest first. */
  function ClearFilters(c: Controls): (r: Controls)
    ensures r.searchTerm == "" && r.statusFilter == "all" && r.circuitFilter == "all" && r.sortBy == "date"
  {
    Controls("", "all", "all", "date")
  }

  /** After clearing, every proof is shown. */
  lemma ClearedShowsAll(proofs: seq<Proof>, c: Controls)
    ensures multiset(FilteredProofs(proofs, ClearFilters(c))) == multiset(proofs)
  {
    var k := ClearFilters(c);
    forall i | 0 <= i < |proofs| ensures Keep(k)(proofs[i]) {
      IncludesEmpty(ToLower(proofs[i].title));
    }
    FilterKeepsAll(proofs, Keep(k));
  }

  // ----- per-status counts -----

  predicate IsPending(p: Proof) { p.status == Pending }
  predicate IsGenerating(p: Proof) { p.status == Generating }
  predicate IsVerified(p: Proof) { p.status == Verified }
  predicate IsFailed(p: Proof) { p.status == Failed }

  datatype StatusCounts = StatusCounts(all: nat, verified: nat, pending: nat, generating: nat, failed: nat)

  function CountStatuses(proofs: seq<Proof>): (sc: StatusCounts)
    ensures sc.all == |proofs|
    ensures sc.verified == Count(proofs, IsVerified) && sc.pending == Count(proofs, IsPending)
    ensures sc.generating == Count(proofs, IsGenerating) && sc.failed == Count(proofs, IsFailed)
  {
    StatusCounts(|proofs|, Count(proofs, IsVerified), Count(proofs, IsPending),
      Count(proofs, IsGenerating), Count(proofs, IsFailed))
  }

  /** Every proof has exactly one of the four statuses, so the four
      counts add up to the total. */
  lemma {:induction false} StatusCountsPartition(proofs: seq<Proof>)
    ensures var sc := CountStatuses(proofs);
      sc.verified + sc.pending + sc.generating + sc.failed == sc.all
  {
    if proofs != [] {
      StatusCountsPartition(proofs[1..]);
    }
  }

  // ----- circuits in use -----

  function CircuitOf(p: Proof): string { p.circuit }

  /** `[...new Set(circuits)]`: each circuit some proof uses, once, in
      order of first use. */
  function CircuitTypes(proofs: seq<Proof>): (r: seq<string>)
    ensures NoDup(r)
    ensures forall c :: c in r <==> exists i | 0 <= i < |proofs| :: proofs[i].circuit == c
    ensures |r| <= |proofs|
  {
    var cs := Map(proofs, CircuitOf);
    DistinctLength(cs);
    Distinct(cs)
  }

  /** The success rate shown above a non-empty result list: the rounded
      percentage of all proofs that are verified. */
  function SuccessRate(proofs: seq<Proof>, c: Controls): (r: Option<nat>)
    ensures r.None? <==> FilteredProofs(proofs, c) == []
    ensures r.Some? ==> |proofs| > 0 && r.value == Percent(|Filter(proofs, IsVerified)|, |proofs|)
    ensures r.Some? ==> r.value <= 100
    ensures r.Some? && (forall i | 0 <= i < |proofs| :: proofs[i].status == Verified) ==> r.value == 100
  {
    var shown := FilteredProofs(proofs, c);
    if shown == [] then None
    else
      assert shown[0] in proofs;
      CountAll(proofs, IsVerified);
      Some(Percent(Count(proofs, IsVerified), |proofs|))
  }
}

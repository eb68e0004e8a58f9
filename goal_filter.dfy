/**
 * The goal listing query: profiles whose goals text matches `%goal%` under ILIKE,
 * ordered by rating.
 */
module GoalFilter {
  import opened Schema

  /** ASCII case folding, which is all ILIKE needs on JSON text written with ensure_ascii. */
  function LowerChar(c: char): char {
    if 'A' <= c <= 'Z' then (c as int + 32) as char else c
  }

  function Lower(s: string): string {
    seq(|s|, i requires 0 <= i < |s| => LowerChar(s[i]))
  }

  /** `pat` occurs in `text` starting at position `i`. */
  predicate OccursAt(text: string, pat: string, i: int) {
    0 <= i <= |text| - |pat| && text[i..i + |pat|] == pat
  }

  /** `pat` occurs in `text` as a contiguous substring: LIKE with the pattern `%pat%`. */
  function Contains(text: string, pat: string): (r: bool)
    ensures r <==> exists i :: OccursAt(text, pat, i)
    decreases |text|
  {
    if pat <= text then
      assert OccursAt(text, pat, 0);
      true
    else if |text| == 0 then false
    else
      var rest := Contains(text[1..], pat);
      assert forall i :: OccursAt(text[1..], pat, i) <==> OccursAt(text, pat, i + 1) by {
        forall i ensures OccursAt(text[1..], pat, i) <==> OccursAt(text, pat, i + 1) {
          if 0 <= i <= |text| - 1 - |pat| {
            assert text[1..][i..i + |pat|] == text[i + 1..i + 1 + |pat|];
          }
        }
      }
      assert !OccursAt(text, pat, 0);
      assert (exists i :: OccursAt(text, pat, i)) ==> exists i :: OccursAt(text[1..], pat, i) by {
        if exists i :: OccursAt(text, pat, i) {
          var i :| OccursAt(text, pat, i);
          assert OccursAt(text[1..], pat, i - 1);
        }
      }
      rest
  }

  /** The ILIKE test of app.py: case-insensitive containment of the goal in the goals text. */
  predicate MatchesGoal(p: Profile, goal: string) {
    Contains(Lower(p.goals), Lower(goal))
  }

  /** The WHERE clause: keeps exactly the matching rows, each as often as it occurs. */
  function WithGoal(rows: seq<Profile>, goal: string): (r: seq<Profile>)
    ensures forall p :: multiset(r)[p] == if MatchesGoal(p, goal) then multiset(rows)[p] else 0
  {
    if rows == [] then []
    else
      assert rows == [rows[0]] + rows[1..];
      if MatchesGoal(rows[0], goal) then [rows[0]] + WithGoal(rows[1..], goal)
      else WithGoal(rows[1..], goal)
  }

  predicate SortedByRating(rows: seq<Profile>) {
    forall j, k :: 0 <= j < k < |rows| ==> rows[j].rating <= rows[k].rating
  }

  lemma SortedCons(x: Profile, rows: seq<Profile>)
    requires SortedByRating(rows)
    requires forall k :: 0 <= k < |rows| ==> x.rating <= rows[k].rating
    ensures SortedByRating([x] + rows)
  {
    var r := [x] + rows;
    forall j, k | 0 <= j < k < |r| ensures r[j].rating <= r[k].rating {
      if j > 0 { assert r[j] == rows[j - 1] && r[k] == rows[k - 1]; }
      else { assert r[k] == rows[k - 1]; }
    }
  }

  /** Inserts `p` into a rating-sorted sequence, before the rows of equal rating, so that
      SortByRating, which inserts each head into its sorted tail, keeps storage order among equals. */
  function Insert(p: Profile, rows: seq<Profile>): (r: seq<Profile>)
    requires SortedByRating(rows)
    ensures SortedByRating(r)
    ensures multiset(r) == multiset(rows) + multiset{p}
  {
    if rows == [] then [p]
    else if p.rating <= rows[0].rating then [p] + rows
    else
      var tail := Insert(p, rows[1..]);
      assert rows == [rows[0]] + rows[1..];
      assert forall k :: 0 <= k < |tail| ==> rows[0].rating <= tail[k].rating by {
        forall k | 0 <= k < |tail| ensures rows[0].rating <= tail[k].rating {
          assert tail[k] in multiset(tail);
          assert tail[k] == p || tail[k] in rows[1..];
        }
      }
      SortedCons(rows[0], tail);
      [rows[0]] + tail
  }

  /** The ORDER BY rating: a permutation of the rows in non-decreasing rating order. */
  function SortByRating(rows: seq<Profile>): (r: seq<Profile>)
    ensures SortedByRating(r)
    ensures multiset(r) == multiset(rows)
  {
    if rows == [] then []
    else
      assert rows == [rows[0]] + rows[1..];
      Insert(rows[0], SortByRating(rows[1..]))
  }

  /** The listing of `/goals/<goal>/`: only profiles whose goals text contains the goal
      case-insensitively, all of them, in non-decreasing rating order. */
  function GoalListing(rows: seq<Profile>, goal: string): (r: seq<Profile>)
    ensures SortedByRating(r)
    ensures forall p :: p in r <==> p in rows && MatchesGoal(p, goal)
    ensures forall p :: multiset(r)[p] == if MatchesGoal(p, goal) then multiset(rows)[p] else 0
  {
    SortByRating(WithGoal(rows, goal))
  }
}

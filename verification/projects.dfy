/**
 The projects section: the tag filter offered above the project grid, the
 list of projects the grid shows for the active filter, and the stack chips
 shown on each project card.
 */
module Projects {
  import opened Seqs
  import opened Options

  /** A project record of the static project list: its id, and the only
      fields the filter and the stack chips read. */
  datatype Project = Project(
    id: int,
    tags: seq<string>,
    stack: seq<string>)

  /** The filter option that shows every project. */
  const All: string := "all"

  /** At most this many stack entries are shown as chips on a card. */
  const MaxChips: nat := 4

  /** Some project of `ps` carries tag `t`. */
  predicate TagUsed(ps: seq<Project>, t: string) {
    exists i :: 0 <= i < |ps| && t in ps[i].tags
  }

  /** Every tag of every project, project by project, each project's tags in
      their own order (duplicates kept). */
  function TagOccurrences(ps: seq<Project>): (r: seq<string>)
    ensures forall t :: t in r <==> TagUsed(ps, t)
  {
    if ps == [] then []
    else
      var rest := TagOccurrences(ps[1..]);
      assert forall t :: TagUsed(ps[1..], t) ==> TagUsed(ps, t) by {
        forall t, i | 0 <= i < |ps| - 1 && t in ps[1..][i].tags
          ensures TagUsed(ps, t)
        {
          assert ps[i + 1] == ps[1..][i];
        }
      }
      assert forall t :: TagUsed(ps, t) && t !in ps[0].tags ==> TagUsed(ps[1..], t) by {
        forall t | TagUsed(ps, t) && t !in ps[0].tags
          ensures TagUsed(ps[1..], t)
        {
          var i :| 0 <= i < |ps| && t in ps[i].tags;
          assert ps[1..][i - 1] == ps[i];
        }
      }
      ps[0].tags + rest
  }

  /** The filter buttons: `All`, then every tag used by some project once, in
      the order the tags are first met. */
  function FilterOptions(ps: seq<Project>): (r: seq<string>)
    ensures |r| >= 1 && r[0] == All
    ensures forall t :: t in r[1..] <==> TagUsed(ps, t)
    ensures NoDup(r[1..])
    ensures |r| <= 1 + |TagOccurrences(ps)|
  {
    [All] + Dedup(TagOccurrences(ps))
  }

  /** The options after `All` are exactly the used tags in first-seen order:
      `Dedup` is not one choice among several but the only list with those
      properties. */
  lemma FilterOptionsFirstSeen(ps: seq<Project>, tags: seq<string>)
    ensures IsFirstSeenDedup(FilterOptions(ps)[1..], TagOccurrences(ps))
    ensures IsFirstSeenDedup(tags, TagOccurrences(ps)) <==> FilterOptions(ps) == [All] + tags
  {
    var occ := TagOccurrences(ps);
    assert FilterOptions(ps)[1..] == Dedup(occ);
    DedupCharacterized(Dedup(occ), occ);
    DedupCharacterized(tags, occ);
  }

  /** The filter options computed the way the page does it: one pass over the
      tags of all projects, inserting into a `Set` and keeping insertion order. */
  method ComputeFilterOptions(ps: seq<Project>) returns (options: seq<string>)
    ensures options == FilterOptions(ps)
  {
    var occ := TagOccurrences(ps);
    var seen: set<string> := {};
    var ordered: seq<string> := [];
    var i := 0;
    while i < |occ|
      invariant 0 <= i <= |occ|
      invariant ordered == Dedup(occ[..i])
      invariant forall t :: t in seen <==> t in occ[..i]
    {
      var t := occ[i];
      assert occ[..i + 1][..i] == occ[..i];
      if t !in seen {
        seen := seen + {t};
        ordered := ordered + [t];
      }
      i := i + 1;
    }
    assert occ[..|occ|] == occ;
    options := [All] + ordered;
  }

  /** The projects carrying tag `t`, in their original order (a stable filter). */
  function WithTag(ps: seq<Project>, t: string): (r: seq<Project>)
    ensures |r| <= |ps|
    ensures IsSubseq(r, ps)
    ensures forall p :: p in r <==> p in ps && t in p.tags
    ensures forall p :: multiset(r)[p] == if t in p.tags then multiset(ps)[p] else 0
  {
    if ps == [] then []
    else
      assert ps == [ps[0]] + ps[1..];
      if t in ps[0].tags then [ps[0]] + WithTag(ps[1..], t)
      else WithTag(ps[1..], t)
  }

  /** The projects the grid shows for filter `filter` (the filter effect).
      `All` shows every project in the source order; a tag shows exactly the
      projects carrying it, every copy of each, as a subsequence of the
      source list. */
  function Visible(ps: seq<Project>, filter: string): (r: seq<Project>)
    ensures filter == All ==> r == ps
    ensures IsSubseq(r, ps) && |r| <= |ps|
    ensures filter != All ==> forall p :: p in r <==> p in ps && filter in p.tags
    ensures filter != All ==>
      forall p :: multiset(r)[p] == if filter in p.tags then multiset(ps)[p] else 0
  {
    if filter == All then SubseqRefl(ps); ps else WithTag(ps, filter)
  }

  /** A tag no project carries selects nothing. */
  lemma VisibleUnusedTag(ps: seq<Project>, t: string)
    requires t != All && !TagUsed(ps, t)
    ensures Visible(ps, t) == []
  {
  }

  /** Filtering the visible list again by the same tag changes nothing. */
  lemma {:induction false} WithTagIdempotent(ps: seq<Project>, t: string)
    ensures WithTag(WithTag(ps, t), t) == WithTag(ps, t)
  {
    if ps != [] {
      WithTagIdempotent(ps[1..], t);
      if t in ps[0].tags {
        var r := WithTag(ps, t);
        assert r == [ps[0]] + WithTag(ps[1..], t);
        assert r[0] == ps[0] && r[1..] == WithTag(ps[1..], t);
      }
    }
  }

  /** Applying the same filter to its own result gives that result again. */
  lemma VisibleIdempotent(ps: seq<Project>, filter: string)
    ensures Visible(Visible(ps, filter), filter) == Visible(ps, filter)
  {
    if filter != All {
      WithTagIdempotent(ps, filter);
    }
  }

  /** The section's state: the active filter and the list last stored by the
      filter effect. */
  datatype Section = Section(filter: string, shown: seq<Project>)

  /** The list shown is the one the filter prescribes. */
  predicate InSync(ps: seq<Project>, s: Section) {
    s.shown == Visible(ps, s.filter)
  }

  /** State at mount: filter `All`, every project shown. */
  function Mount(ps: seq<Project>): (s: Section)
    ensures s.filter == All && s.shown == ps
    ensures InSync(ps, s)
  {
    Section(All, ps)
  }

  /** A click on a filter button: only the filter changes; the list is
      refreshed by the effect that runs after the render. */
  function Click(s: Section, option: string): (s': Section)
    ensures s'.filter == option && s'.shown == s.shown
  {
    s.(filter := option)
  }

  /** The filter effect: recomputes the shown list from the project list and
      the filter alone, whatever the list held before. */
  function RunEffect(ps: seq<Project>, s: Section): (s': Section)
    ensures s'.filter == s.filter
    ensures InSync(ps, s')
  {
    s.(shown := Visible(ps, s.filter))
  }

  /** The shown list depends only on the project list and the filter: no
      earlier list survives the effect. */
  lemma EffectIgnoresPreviousList(ps: seq<Project>, filter: string, a: seq<Project>, b: seq<Project>)
    ensures RunEffect(ps, Section(filter, a)) == RunEffect(ps, Section(filter, b))
  {
  }

  /** The effect's first run, at mount, leaves the state as it was. */
  lemma MountEffectUnchanged(ps: seq<Project>)
    ensures RunEffect(ps, Mount(ps)) == Mount(ps)
  {
  }

  /** Selecting an option: the filter becomes exactly that option and the grid
      shows the projects it prescribes. */
  function Select(ps: seq<Project>, s: Section, option: string): (s': Section)
    ensures s'.filter == option
    ensures InSync(ps, s')
    ensures option == All ==> s'.shown == ps
    ensures option != All ==> forall p :: p in s'.shown <==> p in ps && option in p.tags
  {
    RunEffect(ps, Click(s, option))
  }

  /** A filter button is highlighted when its option is the active filter. */
  predicate IsActive(filter: string, option: string) {
    filter == option
  }

  /** When no project uses the literal tag `all`, the options are duplicate-free,
      so exactly one button is highlighted whenever the filter is an option. */
  lemma OneActiveOption(ps: seq<Project>, filter: string)
    requires !TagUsed(ps, All)
    requires filter in FilterOptions(ps)
    ensures NoDup(FilterOptions(ps))
    ensures exists i :: 0 <= i < |FilterOptions(ps)| && IsActive(filter, FilterOptions(ps)[i])
    ensures forall i, j ::
      (&& 0 <= i < |FilterOptions(ps)| && 0 <= j < |FilterOptions(ps)|
       && IsActive(filter, FilterOptions(ps)[i]) && IsActive(filter, FilterOptions(ps)[j]))
      ==> i == j
  {
    var opts := FilterOptions(ps);
    assert All !in opts[1..];
    forall i, j | 0 <= i < j < |opts|
      ensures opts[i] != opts[j]
    {
      if i == 0 {
        assert opts[j] == opts[1..][j - 1];
      } else {
        assert opts[i] == opts[1..][i - 1] && opts[j] == opts[1..][j - 1];
      }
    }
    var k :| 0 <= k < |opts| && opts[k] == filter;
    assert IsActive(filter, opts[k]);
  }

  /** A project tagged `all` makes that option appear twice, and both buttons
      are highlighted while `All` is active. */
  lemma AllTagDoublesActive(ps: seq<Project>)
    requires TagUsed(ps, All)
    ensures !NoDup(FilterOptions(ps))
    ensures exists i, j ::
      (&& 0 <= i < j < |FilterOptions(ps)|
       && IsActive(All, FilterOptions(ps)[i]) && IsActive(All, FilterOptions(ps)[j]))
  {
    var opts := FilterOptions(ps);
    assert All in opts[1..];
    var j :| 0 <= j < |opts| - 1 && opts[1..][j] == All;
    assert opts[j + 1] == All;
    assert IsActive(All, opts[0]) && IsActive(All, opts[j + 1]);
  }

  /** The stack chips of a card: the first entries and the "+N more" count. */
  datatype Chips = Chips(shown: seq<string>, more: Option<nat>)

  /** A card shows the first `MaxChips` stack entries in order, and a "+N more"
      chip exactly when entries are left over, N being their number. */
  function StackChips(stack: seq<string>): (c: Chips)
    ensures |c.shown| == if |stack| <= MaxChips then |stack| else MaxChips
    ensures c.shown == stack[..|c.shown|]
    ensures c.more.Some? <==> |stack| > MaxChips
    ensures c.more.Some? ==> c.more.value > 0 && |c.shown| + c.more.value == |stack|
    ensures c.more.None? ==> c.shown == stack
  {
    var n := if |stack| <= MaxChips then |stack| else MaxChips;
    Chips(stack[..n], if |stack| > MaxChips then Some(|stack| - MaxChips) else None)
  }

  /** The example list used to describe the filter: project 1 tagged `ml`,
      project 2 tagged `web`, project 3 tagged both. */
  function Sample(): seq<Project> {
    [ Project(1, ["ml"], []),
      Project(2, ["web"], []),
      Project(3, ["ml", "web"], []) ]
  }

  /** Ids of a project list, in order. */
  function Ids(ps: seq<Project>): (r: seq<int>)
    ensures |r| == |ps|
  {
    if ps == [] then [] else [ps[0].id] + Ids(ps[1..])
  }

  /** On the example list, `ml` shows projects 1 and 3. */
  lemma SampleMl()
    ensures Ids(Visible(Sample(), "ml")) == [1, 3]
  {
    var ps := Sample();
    assert ps[1..][1..] == [ps[2]];
    assert WithTag(ps[1..][1..], "ml") == [ps[2]];
    assert WithTag(ps[1..], "ml") == [ps[2]];
    assert WithTag(ps, "ml") == [ps[0], ps[2]];
  }

  /** On the example list, `web` shows projects 2 and 3. */
  lemma SampleWeb()
    ensures Ids(Visible(Sample(), "web")) == [2, 3]
  {
    var ps := Sample();
    assert ps[1..][1..] == [ps[2]];
    assert WithTag(ps[1..][1..], "web") == [ps[2]];
    assert WithTag(ps[1..], "web") == [ps[1], ps[2]];
    assert WithTag(ps, "web") == [ps[1], ps[2]];
  }

  /** On the example list, an unused tag shows nothing. */
  lemma SampleNone()
    ensures Visible(Sample(), "none") == []
  {
  }

  /** On the example list, the options are `all`, `ml`, `web`. */
  lemma SampleOptions()
    ensures FilterOptions(Sample()) == ["all", "ml", "web"]
  {
    var ps := Sample();
    var occ := TagOccurrences(ps);
    assert ps[1..][1..] == [ps[2]];
    assert occ == ["ml", "web", "ml", "web"];
    var d1 := Dedup(occ[..1]);
    assert d1 == ["ml"];
    assert Dedup(occ[..2]) == ["ml", "web"];
    assert Dedup(occ[..3]) == ["ml", "web"];
  }
}

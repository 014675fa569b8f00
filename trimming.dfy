/** The two ways the view shortens names: the model base identifier used to look up
    references and meta rows (benchmarks/views/index.py:67-68), and the lab prefix removed
    from benchmark names for display (benchmarks/views/index.py:25-27). */
module Trimming {
  import opened Common

  /** "--" occurs in `s` at position `j`. */
  predicate DashesAt(s: string, j: int) {
    0 <= j && j + 1 < |s| && s[j] == '-' && s[j + 1] == '-'
  }

  /** `re.search(r'(--)', s)`: the start of the first "--" in `s`. */
  function FirstDashes(s: string): (r: Option<nat>)
    ensures r.None? <==> forall j :: !DashesAt(s, j)
    ensures r.Some? ==> DashesAt(s, r.value) && forall j | j < r.value :: !DashesAt(s, j)
  {
    if |s| < 2 then None
    else if s[0] == '-' && s[1] == '-' then
      assert DashesAt(s, 0);
      Some(0)
    else match FirstDashes(s[1..])
      case None =>
        assert forall j | DashesAt(s, j) :: j == 0 || DashesAt(s[1..], j - 1);
        None
      case Some(i) =>
        assert forall j | DashesAt(s, j) :: j == 0 || DashesAt(s[1..], j - 1);
        assert DashesAt(s, i + 1);
        Some(i + 1)
  }

  /** The model base identifier: the model name up to its first "--", or the whole name.
      The ensures determine the result: a prefix of the name in which no "--" starts, and
      which is either the whole name or is followed by "--". */
  function BaseIdentifier(model: string): (r: string)
    ensures |r| <= |model| && r == model[..|r|]
    ensures forall j | 0 <= j < |r| :: !DashesAt(model, j)
    ensures r == model || DashesAt(model, |r|)
  {
    match FirstDashes(model)
    case None => model
    case Some(i) => model[..i]
  }

  /** The base identifier holds no "--". */
  lemma {:induction false} BaseIdentifierHasNoDashes(model: string)
    ensures forall j :: !DashesAt(BaseIdentifier(model), j)
  {
    var r := BaseIdentifier(model);
    forall j | DashesAt(r, j) ensures false {
      assert DashesAt(model, j);
    }
  }

  /** Any prefix of the name with the properties above is the base identifier. */
  lemma {:induction false} BaseIdentifierUnique(model: string, p: string)
    requires |p| <= |model| && p == model[..|p|]
    requires forall j | 0 <= j < |p| :: !DashesAt(model, j)
    requires p == model || DashesAt(model, |p|)
    ensures p == BaseIdentifier(model)
  {
  }

  /** The base identifier of a base identifier is itself. */
  lemma {:induction false} BaseIdentifierIdempotent(model: string)
    ensures BaseIdentifier(BaseIdentifier(model)) == BaseIdentifier(model)
  {
    BaseIdentifierHasNoDashes(model);
  }

  /** The regular expression `[^\.]+\.(.+)` matches `name` from its start with its dot at
      `dot` and captures `group`: at least one character before the first dot, and after it
      the longest nonempty run of characters other than a newline (Python's `.`). */
  ghost predicate LabMatch(name: string, dot: nat, group: string) {
    && 0 < dot < |name| && name[dot] == '.' && '.' !in name[..dot]
    && group != [] && '\n' !in group
    && dot + 1 + |group| <= |name| && name[dot + 1..dot + 1 + |group|] == group
    && (dot + 1 + |group| == |name| || name[dot + 1 + |group|] == '\n')
  }

  /** `s` up to its first newline: what `.+` can consume. */
  function Line(s: string): (r: string)
    ensures |r| <= |s| && r == s[..|r|] && '\n' !in r
    ensures |r| == |s| || s[|r|] == '\n'
  {
    match IndexOf(s, '\n')
    case None => s
    case Some(k) => s[..k]
  }

  /** The benchmark name shown in the table: `match.group(1)` where the lab pattern
      matches, the name itself where it does not. */
  function StripLab(name: string): (r: string)
    ensures r != name ==> exists dot :: LabMatch(name, dot, r)
    ensures forall dot, group | LabMatch(name, dot, group) :: r == group
  {
    match IndexOf(name, '.')
    case None => name
    case Some(dot) =>
      var group := Line(name[dot + 1..]);
      assert forall d, g | LabMatch(name, d, g) :: d == dot && g == group by {
        forall d: nat, g | LabMatch(name, d, g) ensures d == dot && g == group {
          LineUnique(name[dot + 1..], g);
        }
      }
      if dot == 0 || group == [] then name
      else
        assert LabMatch(name, dot, group);
        group
  }

  /** A prefix of `s` with no newline that ends at a newline or at the end is `Line(s)`. */
  lemma {:induction false} LineUnique(s: string, g: string)
    requires |g| <= |s| && g == s[..|g|] && '\n' !in g
    requires |g| == |s| || s[|g|] == '\n'
    ensures g == Line(s)
  {
  }

  /** For a name without newlines: the text after the first dot when that dot is neither
      the first nor the last character, the name itself otherwise. */
  lemma {:induction false} StripLabSingleLine(name: string, dot: nat)
    requires '\n' !in name
    requires dot < |name| && name[dot] == '.' && '.' !in name[..dot]
    ensures StripLab(name) == if 0 < dot < |name| - 1 then name[dot + 1..] else name
  {
    if 0 < dot < |name| - 1 {
      assert LabMatch(name, dot, name[dot + 1..]);
    }
  }

  /** A name without a dot is left alone. */
  lemma {:induction false} StripLabNoDot(name: string)
    requires '.' !in name
    ensures StripLab(name) == name
  {
  }

  /** Joining two parts with a dot: the dot sits right after the first part, and no
      newline appears that was not in a part. */
  lemma {:induction false} DotJoin(a: string, b: string)
    ensures var s := a + "." + b;
      && |s| == |a| + 1 + |b| && s[|a|] == '.' && s[..|a|] == a && s[|a| + 1..] == b
      && ('\n' !in a && '\n' !in b ==> '\n' !in s)
  {
    var s := a + "." + b;
    assert s == a + ("." + b);
    assert s[..|a|] == a;
    assert s[|a| + 1..] == b;
  }

  /** Stripping is not idempotent: a name with two dots loses one prefix per stripping,
      which is why the view must visit each benchmark object once. */
  lemma {:induction false} StripLabTwice(lab: string, group: string, task: string)
    requires lab != [] && group != [] && task != []
    requires '.' !in lab && '.' !in group
    requires '\n' !in lab && '\n' !in group && '\n' !in task
    ensures StripLab(lab + "." + group + "." + task) == group + "." + task
    ensures StripLab(group + "." + task) == task
  {
    DotJoin(group, task);
    StripLabSingleLine(group + "." + task, |group|);
    LabPrefix(lab, group, task);
    StripLabSingleLine(lab + "." + group + "." + task, |lab|);
  }

  /** In `lab.group.task` the first dot follows `lab`, and the rest is `group.task`. */
  lemma {:induction false} LabPrefix(lab: string, group: string, task: string)
    requires '\n' !in lab && '\n' !in group && '\n' !in task
    ensures var name := lab + "." + group + "." + task;
      && |lab| < |name| && name[|lab|] == '.' && name[..|lab|] == lab
      && name[|lab| + 1..] == group + "." + task && '\n' !in name
  {
    var once := group + "." + task;
    DotJoin(group, task);
    DotJoin(lab, once);
    assert lab + "." + group + "." + task == lab + "." + once;
  }
}

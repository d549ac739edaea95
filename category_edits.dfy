/**
 * Renaming, deleting and moving categories. Each operation loads all
 * projects, rewrites every project's `categories` list and hands the
 * project to `updateProject`; the rewriting rule is the only thing that
 * differs between the category module's update/delete and the folder
 * module's update/delete/move.
 */
module CategoryEdits {
  import opened Wrappers
  import opened Strings
  import opened Models
  import opened Category

  // ------------------------------------------------------------ paths

  /** `getCategoryLabel`: the last segment. */
  function CategoryLabel(category: string): (r: string)
    ensures '/' !in r
  {
    SplitPartsLackSeparator(category, '/');
    LastPart(category, '/')
  }

  /** `getParentCategory`: all segments but the last, joined again. */
  function ParentCategory(category: string): (r: string) {
    var parts := Split(category, '/');
    Join(parts[..|parts| - 1], "/")
  }

  /** A text with a separator splits into at least two parts. */
  lemma {:induction false} SplitAtSeparator(c: string)
    requires '/' in c
    ensures |Split(c, '/')| >= 2
    decreases |c|
  {
    if c[0] != '/' {
      assert '/' in c[1..];
      SplitAtSeparator(c[1..]);
    }
  }

  /** A category with a separator is its parent, a "/" and its label; one
      without is a top-level category with the empty parent. */
  lemma ParentAndLabel(c: string)
    ensures '/' in c ==> c == ParentCategory(c) + "/" + CategoryLabel(c)
    ensures '/' !in c ==> ParentCategory(c) == "" && CategoryLabel(c) == c
  {
    var parts := Split(c, '/');
    if '/' in c {
      SplitAtSeparator(c);
      JoinSplit(c, '/');
      var init := parts[..|parts| - 1];
      assert parts == init + [parts[|parts| - 1]];
      JoinAppend(init, parts[|parts| - 1], "/");
    } else {
      SplitWithoutSeparator(c, '/');
      assert parts[..0] == [];
    }
  }

  /** The parent of `p/x` is `p` and its label `x`. */
  lemma ParentOfChild(p: string, x: string)
    requires '/' !in x
    ensures ParentCategory(p + "/" + x) == p && CategoryLabel(p + "/" + x) == x
  {
    assert p + "/" + x == p + ['/'] + x;
    SplitConcat(p, '/', x);
    SplitWithoutSeparator(x, '/');
    var parts := Split(p + "/" + x, '/');
    assert parts[..|parts| - 1] == Split(p, '/');
    JoinSplit(p, '/');
    LastPartAfter(p, '/', x);
  }

  /** `c` is the category `root` or one of its subcategories. */
  predicate InSubtree(c: string, root: string) {
    c == root || StartsWith(c, root + "/")
  }

  lemma StartsWithLonger(s: string, p: string, q: string)
    requires StartsWith(s, p + q)
    ensures StartsWith(s, p)
  {
    assert s[..|p|] == (p + q)[..|p|];
  }

  /** `root + s` where `s` does not begin a new segment is a sibling of
      `root`, not inside it, yet starts with it. */
  lemma SiblingOutsideSubtree(root: string, s: string)
    requires |s| > 0 && s[0] != '/'
    ensures StartsWith(root + s, root) && !InSubtree(root + s, root)
  {
    assert (root + s)[..|root|] == root;
    assert (root + s)[|root|] == s[0];
    assert (root + "/")[|root|] == '/';
  }

  // ------------------------------------------------------------ edits

  /** The rule each loop applies to a project's categories. The first four
      are the code's rules; the last three are the subtree-respecting
      rules that the operations evidently intend. */
  datatype CategoryEdit =
    /** `category.replace(old, new)`: the first occurrence anywhere */
    | ReplaceFirstIn(from: string, to: string)
    /** `category === old ? new : category` */
    | RenameExact(from: string, to: string)
    /** `filter(cat => !cat.startsWith(category))` */
    | DropPrefixed(prefix: string)
    /** `startsWith(drag) ? category.replace(getParentCategory(category), drop) : category` */
    | MoveInto(drag: string, drop: string)
    | RenameSubtree(from: string, to: string)
    | DropSubtree(root: string)
    | MoveSubtree(drag: string, drop: string)

  predicate IsFilter(e: CategoryEdit) {
    e.DropPrefixed? || e.DropSubtree?
  }

  /** The new name of one category under a renaming edit. */
  function EditOne(c: string, e: CategoryEdit): string
    requires !IsFilter(e)
  {
    match e
    case ReplaceFirstIn(from, to) => Replace(c, from, to)
    case RenameExact(from, to) => if c == from then to else c
    case MoveInto(drag, drop) => if StartsWith(c, drag) then Replace(c, ParentCategory(c), drop) else c
    case RenameSubtree(from, to) => if InSubtree(c, from) then to + c[|from|..] else c
    case MoveSubtree(drag, drop) =>
      if InSubtree(c, drag) then drop + "/" + CategoryLabel(drag) + c[|drag|..] else c
  }

  /** Whether a deleting edit keeps a category. */
  predicate KeepsCategory(c: string, e: CategoryEdit)
    requires IsFilter(e)
  {
    if e.DropPrefixed? then !StartsWith(c, e.prefix) else !InSubtree(c, e.root)
  }

  function Kept(cats: seq<string>, e: CategoryEdit): (r: seq<string>)
    requires IsFilter(e)
    ensures forall c :: c in r <==> c in cats && KeepsCategory(c, e)
    decreases |cats|
  {
    if |cats| == 0 then []
    else
      var init := Kept(cats[..|cats| - 1], e);
      var last := cats[|cats| - 1];
      assert cats == cats[..|cats| - 1] + [last];
      if KeepsCategory(last, e) then init + [last] else init
  }

  /** A project's categories after the edit. */
  function Edited(cats: seq<string>, e: CategoryEdit): (r: seq<string>)
    ensures IsFilter(e) ==> forall c :: c in r <==> c in cats && KeepsCategory(c, e)
    ensures !IsFilter(e) ==> |r| == |cats| && forall i :: 0 <= i < |r| ==> r[i] == EditOne(cats[i], e)
  {
    if IsFilter(e) then Kept(cats, e)
    else seq(|cats|, i requires 0 <= i < |cats| => EditOne(cats[i], e))
  }

  /** The loop shared by the update, delete and move operations: every
      loaded project, in order, with its categories rewritten, as handed
      to `updateProject`; nothing when the projects cannot be loaded (the
      error is caught and logged). */
  method ApplyToProjects(projects: Option<seq<Project>>, e: CategoryEdit) returns (written: seq<Project>)
    ensures projects.None? ==> written == []
    ensures projects.Some? ==> (|written| == |projects.value|
      && forall i :: 0 <= i < |written| ==>
        written[i] == projects.value[i].(categories := Edited(projects.value[i].categories, e)))
  {
    written := [];
    if projects.None? {
      return;
    }
    var all := projects.value;
    var i := 0;
    while i < |all|
      invariant 0 <= i <= |all| && |written| == i
      invariant forall j :: 0 <= j < i ==> written[j] == all[j].(categories := Edited(all[j].categories, e))
    {
      var project := all[i].(categories := Edited(all[i].categories, e));
      written := written + [project];
      i := i + 1;
    }
  }

  // ------------------------------------------- renaming (category module)

  /** `replace` moves a category and its subcategories: the first
      occurrence of the old path is its prefix, and it is replaced by the
      new name with its replacement patterns expanded (the rest of the
      category being the text after the match); a new name without "$"
      is taken as it is. */
  lemma ReplaceFirstMovesSubtree(c: string, from: string, to: string)
    requires InSubtree(c, from)
    ensures EditOne(c, ReplaceFirstIn(from, to)) == Substitution(to, from, "", c[|from|..]) + c[|from|..]
    ensures '$' !in to ==> EditOne(c, ReplaceFirstIn(from, to)) == to + c[|from|..]
    ensures InSubtree(to + c[|from|..], to)
  {
    if c != from {
      StartsWithLonger(c, from, "/");
      assert c[|from|..][..1] == "/";
      assert (to + c[|from|..])[..|to| + 1] == to + "/";
    }
  }

  /** A category that does not contain the old path is left alone. */
  lemma ReplaceFirstKeepsUnrelated(c: string, from: string, to: string)
    requires !Contains(c, from)
    ensures EditOne(c, ReplaceFirstIn(from, to)) == c
  {
    ReplaceFirstAbsent(c, from, to);
  }

  /** Renaming a category to itself changes nothing when the name holds
      no "$". */
  lemma ReplaceFirstSelfNoOp(cats: seq<string>, x: string)
    requires '$' !in x
    ensures Edited(cats, ReplaceFirstIn(x, x)) == cats
  {
    forall i | 0 <= i < |cats| ensures EditOne(cats[i], ReplaceFirstIn(x, x)) == cats[i] {
      ReplaceFirstSelf(cats[i], x);
    }
  }

  /** With a "$" in the name, renaming to itself can change it: "a$$b"
      renamed to "a$$b" becomes "a$b". */
  lemma RenameToSelfWithDollars()
    ensures EditOne("a$$b", ReplaceFirstIn("a$$b", "a$$b")) == "a$b"
  {
    var x := "a$$b";
    assert StartsWith(x, x) && x[|x|..] == "";
    SubstitutionDollars("a", "b", x, "", "");
  }

  /** A new name holding "$&" brings the old name back in: renaming "a"
      to "x$&y" gives "xay". */
  lemma RenameWithMatchPattern()
    ensures EditOne("a", ReplaceFirstIn("a", "x$&y")) == "xay"
  {
    assert StartsWith("a", "a") && "a"[1..] == "";
    var r := "x$&y";
    assert r[1..] == "$&y" && r[1..][2..] == "y";
    assert Substitution("y", "a", "", "") == "y";
    assert Substitution(r[1..], "a", "", "") == "a" + "y";
  }

  /** "$$" between two texts without "$" expands to a single "$". */
  lemma SubstitutionDollars(a: string, b: string, matched: string, before: string, after: string)
    requires '$' !in a && '$' !in b
    ensures Substitution(a + "$$" + b, matched, before, after) == a + "$" + b
    decreases |a|
  {
    if |a| == 0 {
      assert a + "$$" + b == "$$" + b;
      assert ("$$" + b)[2..] == b;
    } else {
      assert (a + "$$" + b)[1..] == a[1..] + "$$" + b;
      assert a[0] in a;
      SubstitutionDollars(a[1..], b, matched, before, after);
      assert [a[0]] + (a[1..] + "$" + b) == a + "$" + b;
    }
  }

  /** As written, `replace` also renames a sibling whose name merely
      starts with the old one: renaming "library/a" to "library/b" turns
      "library/ab" into "library/bb". */
  lemma ReplaceFirstRenamesSibling(from: string, to: string, s: string)
    requires |s| > 0 && s[0] != '/'
    ensures !InSubtree(from + s, from)
    ensures EditOne(from + s, ReplaceFirstIn(from, to)) == Substitution(to, from, "", s) + s
    ensures '$' !in to ==> EditOne(from + s, ReplaceFirstIn(from, to)) == to + s
  {
    SiblingOutsideSubtree(from, s);
    assert (from + s)[|from|..] == s;
  }

  /** The subtree rename: the category and its subcategories move exactly
      as `replace` moves them when the new name holds no "$" (the new name
      is taken literally), and every other category, a sibling with a
      longer name included, is left alone. */
  lemma RenameSubtreeKeepsSiblings(c: string, from: string, to: string)
    ensures InSubtree(c, from) ==> EditOne(c, RenameSubtree(from, to)) == to + c[|from|..]
    ensures InSubtree(c, from) && '$' !in to ==> EditOne(c, RenameSubtree(from, to)) == EditOne(c, ReplaceFirstIn(from, to))
    ensures InSubtree(c, from) ==> InSubtree(EditOne(c, RenameSubtree(from, to)), to)
    ensures !InSubtree(c, from) ==> EditOne(c, RenameSubtree(from, to)) == c
  {
    if InSubtree(c, from) {
      ReplaceFirstMovesSubtree(c, from, to);
    }
  }

  // --------------------------------------------- renaming (folder module)

  /** The folder module renames only the exact category. */
  lemma RenameExactOnlyExact(c: string, from: string, to: string)
    ensures c == from ==> EditOne(c, RenameExact(from, to)) == to
    ensures c != from ==> EditOne(c, RenameExact(from, to)) == c
  {
  }

  /** So the subcategories keep the old path, and the old category stays
      in the tree through them: renaming `from` in `[from, from/x]` leaves
      `from/x`, and `from` is still a node. */
  lemma RenameExactKeepsOldCategory(from: string, to: string, x: string)
    requires '/' !in x
    ensures Edited([from, from + "/" + x], RenameExact(from, to)) == [to, from + "/" + x]
    ensures from in AllIds(BuildTree(Edited([from, from + "/" + x], RenameExact(from, to)), ByPath))
  {
    var after := Edited([from, from + "/" + x], RenameExact(from, to));
    assert from + "/" + x != from by { assert |from + "/" + x| > |from|; }
    assert after == [to, from + "/" + x];
    assert from + "/" + x == from + ['/'] + x;
    SplitConcat(from, '/', x);
    SplitWithoutSeparator(x, '/');
    var parts := Split(from + "/" + x, '/');
    var k := |Split(from, '/')| - 1;
    assert parts[..k + 1] == Split(from, '/');
    JoinSplit(from, '/');
    PrefixesContain(parts, 0, k);
    BuildTreeIds(after);
    assert after[1] == from + "/" + x;
  }

  /** The subtree rename moves the subcategories along. */
  lemma RenameSubtreeMovesChildren(from: string, to: string, x: string)
    ensures EditOne(from + "/" + x, RenameSubtree(from, to)) == to + "/" + x
  {
    assert StartsWith(from + "/" + x, from + "/") by {
      assert (from + "/" + x)[..|from| + 1] == from + "/";
    }
    assert (from + "/" + x)[|from|..] == "/" + x;
  }

  // --------------------------------------------------------- deleting

  /** Deleting drops the category and all its subcategories. */
  lemma DropPrefixedRemovesSubtree(cats: seq<string>, p: string, c: string)
    requires c in Edited(cats, DropPrefixed(p))
    ensures c in cats && !InSubtree(c, p)
  {
    if StartsWith(c, p + "/") {
      StartsWithLonger(c, p, "/");
    }
  }

  /** Every category outside the deleted prefix stays. */
  lemma DropPrefixedKeepsOthers(cats: seq<string>, p: string, c: string)
    requires c in cats && !StartsWith(c, p)
    ensures c in Edited(cats, DropPrefixed(p))
  {
  }

  /** As written, `startsWith` also drops a sibling whose name merely
      starts with the deleted one: deleting "library/a" drops
      "library/ab". */
  lemma DropPrefixedDropsSibling(p: string, s: string)
    requires |s| > 0 && s[0] != '/'
    ensures !InSubtree(p + s, p)
    ensures p + s !in Edited([p + s], DropPrefixed(p))
  {
    SiblingOutsideSubtree(p, s);
  }

  /** The subtree delete: a category stays exactly when it is outside the
      deleted subtree, so siblings with longer names stay. */
  lemma DropSubtreeKeepsSiblings(cats: seq<string>, p: string, s: string)
    requires |s| > 0 && s[0] != '/'
    ensures forall c :: c in Edited(cats, DropSubtree(p)) <==> c in cats && !InSubtree(c, p)
    ensures p + s in cats ==> p + s in Edited(cats, DropSubtree(p))
  {
    SiblingOutsideSubtree(p, s);
  }

  // ----------------------------------------------------------- moving

  /** The dragged category itself lands below the drop target under its
      own label. */
  lemma MoveIntoMovesDragged(drag: string, drop: string)
    requires '/' in drag
    ensures EditOne(drag, MoveInto(drag, drop))
      == Substitution(drop, ParentCategory(drag), "", "/" + CategoryLabel(drag)) + "/" + CategoryLabel(drag)
    ensures '$' !in drop ==> EditOne(drag, MoveInto(drag, drop)) == drop + "/" + CategoryLabel(drag)
  {
    ParentAndLabel(drag);
    var parent := ParentCategory(drag);
    assert drag == parent + ("/" + CategoryLabel(drag));
    assert StartsWith(drag, parent) by { assert drag[..|parent|] == parent; }
    assert drag[|parent|..] == "/" + CategoryLabel(drag);
    assert StartsWith(drag, drag);
  }

  /** As written, a subcategory's own parent is replaced, which is the
      dragged category itself: moving "library/a" into "library/b" turns
      "library/a/x" into "library/b/x", out from under the moved
      "library/b/a". */
  lemma MoveIntoFlattensChild(drag: string, drop: string, x: string)
    requires '/' !in x
    ensures EditOne(drag + "/" + x, MoveInto(drag, drop)) == Substitution(drop, drag, "", "/" + x) + "/" + x
    ensures '$' !in drop ==> EditOne(drag + "/" + x, MoveInto(drag, drop)) == drop + "/" + x
  {
    ParentOfChild(drag, x);
    var c := drag + "/" + x;
    assert StartsWith(c, drag) by { assert c[..|drag|] == drag; }
    assert c[|drag|..] == "/" + x;
  }

  /** The subtree move: the dragged category goes where the code puts it,
      and each subcategory stays below it. */
  lemma MoveSubtreeKeepsChildren(drag: string, drop: string, x: string)
    requires '/' in drag && '/' !in x
    ensures EditOne(drag, MoveSubtree(drag, drop)) == drop + "/" + CategoryLabel(drag)
    ensures '$' !in drop ==> EditOne(drag, MoveSubtree(drag, drop)) == EditOne(drag, MoveInto(drag, drop))
    ensures EditOne(drag + "/" + x, MoveSubtree(drag, drop)) == EditOne(drag, MoveSubtree(drag, drop)) + "/" + x
    ensures ParentCategory(EditOne(drag + "/" + x, MoveSubtree(drag, drop))) == EditOne(drag, MoveSubtree(drag, drop))
  {
    MoveIntoMovesDragged(drag, drop);
    assert drag[|drag|..] == "";
    var moved := drop + "/" + CategoryLabel(drag);
    assert EditOne(drag, MoveSubtree(drag, drop)) == moved;
    var c := drag + "/" + x;
    assert StartsWith(c, drag + "/") by { assert c[..|drag| + 1] == drag + "/"; }
    assert c[|drag|..] == "/" + x;
    ParentOfChild(moved, x);
  }
}

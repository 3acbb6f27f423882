/** Endpoint labels and the Boolean expressions that select them. */
module Labels {
  import opened Prelude

  /** A label is an ordered list of elements; equality is list equality. */
  type Label = seq<string>

  datatype LabelOp =
    | True
    | False
    | Leaf(element: string)
    | Not(arg: LabelOp)
    | And(left: LabelOp, right: LabelOp)
    | Or(left: LabelOp, right: LabelOp)

  predicate Validate(op: LabelOp, tags: Label) {
    match op
    case True => true
    case False => false
    case Leaf(v) => v in tags
    case And(l, r) => Validate(l, tags) && Validate(r, tags)
    case Or(l, r) => Validate(l, tags) || Validate(r, tags)
    case Not(l) => !Validate(l, tags)
  }

  ghost function Elements(tags: Label): set<string> { set s | s in tags }

  ghost predicate Distinct(tags: Label) {
    forall i, j | 0 <= i < j < |tags| :: tags[i] != tags[j]
  }

  function Inserted(tags: Label, s: string): Label {
    if s in tags then tags else tags + [s]
  }

  function Removed(tags: Label, s: string): Label {
    Filter(tags, i => i != s)
  }

  function InsertedAll(tags: Label, items: seq<string>): Label {
    if items == [] then tags
    else Inserted(InsertedAll(tags, items[..|items| - 1]), items[|items| - 1])
  }

  /** The list a label wraps, changed in place. */
  class LabelList {
    var items: Label

    constructor ()
      ensures items == []
    {
      items := [];
    }

    method Insert(s: string)
      modifies this
      ensures items == Inserted(old(items), s)
    {
      var found := Contains(s);
      if found {
        return;
      }
      items := items + [s];
    }

    method Remove(s: string)
      modifies this
      ensures items == Removed(old(items), s)
    {
      var kept: Label := [];
      for i := 0 to |items|
        invariant kept == Removed(items[..i], s)
        invariant items == old(items)
      {
        assert items[..i + 1][..i] == items[..i];
        if items[i] != s {
          kept := kept + [items[i]];
        }
      }
      assert items[..|items|] == items;
      items := kept;
    }

    method Contains(s: string) returns (found: bool)
      ensures found <==> s in items
    {
      found := false;
      for i := 0 to |items|
        invariant found <==> s in items[..i]
      {
        if items[i] == s {
          found := true;
        }
      }
    }

    method All(sub: seq<string>) returns (all: bool)
      ensures all <==> forall s | s in sub :: s in items
    {
      for i := 0 to |sub|
        invariant forall s | s in sub[..i] :: s in items
      {
        var found := Contains(sub[i]);
        if !found {
          return false;
        }
      }
      return true;
    }

    /** `Label::from`: insert every item of a sequence, in order. */
    method Extend(list: seq<string>)
      modifies this
      ensures items == InsertedAll(old(items), list)
    {
      for i := 0 to |list|
        invariant items == InsertedAll(old(items), list[..i])
      {
        assert list[..i + 1][..i] == list[..i];
        Insert(list[i]);
      }
      assert list[..|list|] == list;
    }
  }

  /** A label built by insertion holds exactly the given elements, each once. */
  lemma {:induction false} InsertedAllIsSet(tags: Label, items: seq<string>)
    requires Distinct(tags)
    ensures Distinct(InsertedAll(tags, items))
    ensures Elements(InsertedAll(tags, items)) == Elements(tags) + Elements(items)
  {
    if items != [] {
      var front, last := items[..|items| - 1], items[|items| - 1];
      InsertedAllIsSet(tags, front);
      var built := InsertedAll(tags, front);
      assert items == front + [last];
      assert Elements(items) == Elements(front) + {last};
      assert Elements(Inserted(built, last)) == Elements(built) + {last};
    }
  }

  /** Removal takes every occurrence, and undoes an insertion exactly when the element was new. */
  lemma RemoveUndoesInsert(tags: Label, s: string)
    ensures s !in Removed(tags, s)
    ensures Removed(Inserted(tags, s), s) == tags <==> s !in tags
  {
    FilterMembers(tags, i => i != s);
    if s !in tags {
      FilterConcat(tags, [s], i => i != s);
      FilterIdentity(tags, s);
    }
  }

  lemma {:induction false} FilterIdentity(tags: Label, s: string)
    requires s !in tags
    ensures Removed(tags, s) == tags
  {
    if tags != [] {
      FilterIdentity(tags[..|tags| - 1], s);
      assert tags == tags[..|tags| - 1] + [tags[|tags| - 1]];
    }
  }

  /** Matching looks only at which elements a label holds, never at their order or number. */
  lemma {:induction false} ValidateSeesOnlyElements(op: LabelOp, a: Label, b: Label)
    requires Elements(a) == Elements(b)
    ensures Validate(op, a) == Validate(op, b)
  {
    match op
    case True =>
    case False =>
    case Leaf(v) => assert v in Elements(a) <==> v in Elements(b);
    case Not(l) => ValidateSeesOnlyElements(l, a, b);
    case And(l, r) => ValidateSeesOnlyElements(l, a, b); ValidateSeesOnlyElements(r, a, b);
    case Or(l, r) => ValidateSeesOnlyElements(l, a, b); ValidateSeesOnlyElements(r, a, b);
  }

  /** A chain of `and`, and a chain of `or`, over elements. */
  function AllOf(items: seq<string>): LabelOp {
    if items == [] then True else And(AllOf(items[..|items| - 1]), Leaf(items[|items| - 1]))
  }

  function AnyOf(items: seq<string>): LabelOp {
    if items == [] then False else Or(AnyOf(items[..|items| - 1]), Leaf(items[|items| - 1]))
  }

  lemma {:induction false} AllOfMeans(items: seq<string>, tags: Label)
    ensures Validate(AllOf(items), tags) <==> Elements(items) <= Elements(tags)
  {
    if items != [] {
      var front, last := items[..|items| - 1], items[|items| - 1];
      AllOfMeans(front, tags);
      assert items == front + [last];
      assert Elements(items) == Elements(front) + {last};
    }
  }

  lemma {:induction false} AnyOfMeans(items: seq<string>, tags: Label)
    ensures Validate(AnyOf(items), tags) <==> Elements(items) * Elements(tags) != {}
  {
    if items != [] {
      var front, last := items[..|items| - 1], items[|items| - 1];
      AnyOfMeans(front, tags);
      assert items == front + [last];
      assert Elements(items) == Elements(front) + {last};
      if last in Elements(tags) {
        assert last in Elements(items) * Elements(tags);
      } else {
        assert Elements(items) * Elements(tags) == Elements(front) * Elements(tags);
      }
    }
  }

  /** What expressions select, in terms of sets: a chain of `and` the labels that contain all its elements, a chain of `or`
      those that contain any, and the negation of each the others. */
  lemma ChainsSelect(items: seq<string>, tags: Label)
    ensures Validate(AllOf(items), tags) <==> Elements(items) <= Elements(tags)
    ensures Validate(AnyOf(items), tags) <==> Elements(items) * Elements(tags) != {}
    ensures Validate(Not(AllOf(items)), tags) <==> exists s :: s in items && s !in tags
    ensures Validate(Not(AnyOf(items)), tags) <==> forall s | s in items :: s !in tags
  {
    AllOfMeans(items, tags);
    AnyOfMeans(items, tags);
    assert forall s | s in items :: s in Elements(items) && (s in tags <==> s in Elements(tags));
    if Elements(items) * Elements(tags) != {} {
      var s :| s in Elements(items) * Elements(tags);
      assert s in items && s in tags;
    } else {
      assert forall s | s in items && s in tags :: s in Elements(items) * Elements(tags);
    }
  }
}

/**
 * The `handleChange` input handler that the profile page and the registration form share:
 * an input named "parent.child" rebuilds the nested object under `parent`, any other name
 * replaces one top-level field.
 */
module Forms {
  import opened Json
  import opened Text

  /** A field nobody has filled in: "" or an object of such fields one level down. */
  predicate Unfilled(v: Value) {
    v == Str("") || (v.Obj? && forall c :: c in v.fields ==> v.fields[c] == Str(""))
  }

  /** The empty address both forms start from. */
  function DefaultAddress(): Value {
    Obj(map["street" := Str(""), "city" := Str(""), "state" := Str(""), "country" := Str(""), "zipCode" := Str("")])
  }

  /** The empty company both forms start from. */
  function DefaultCompany(): Value {
    Obj(map["name" := Str(""), "position" := Str("")])
  }

  /** The record after `handleChange` with input name `name` and input value `value`. */
  function Change(rec: Record, name: string, value: string): (r: Record)
    ensures var key := SplitOn(name, '.')[0];
      && r.Keys == rec.Keys + {key}
      && (forall k :: k in rec && k != key ==> r[k] == rec[k])
    ensures '.' !in name ==> r[name] == Str(value)
    ensures '.' in name ==>
      var path := SplitOn(name, '.');
      && r[path[0]].Obj? && path[1] in r[path[0]].fields
      && r[path[0]].fields[path[1]] == Str(value)
  {
    if '.' in name then
      var path := SplitOn(name, '.');
      var parent := path[0];
      rec[parent := Obj(Spread(Get(rec, parent))[path[1] := Str(value)])]
    else
      rec[name := Str(value)]
  }

  /** A dotted input name is cut at its first two dots. */
  lemma DottedPath(parent: string, child: string)
    requires '.' !in parent && '.' !in child
    ensures SplitOn(parent + "." + child, '.') == [parent, child]
  {
    SplitOnHead(parent, '.', child);
  }

  /**
   * An input named "parent.child" sets that child of `parent` and changes no other
   * top-level field; the other children of `parent` are those the old value spread into.
   */
  lemma ChangeNested(rec: Record, parent: string, child: string, value: string)
    requires '.' !in parent && '.' !in child
    ensures var r := Change(rec, parent + "." + child, value);
      && r.Keys == rec.Keys + {parent}
      && (forall k :: k in rec && k != parent ==> r[k] == rec[k])
      && r[parent] == Obj(Spread(Get(rec, parent))[child := Str(value)])
  {
    DottedPath(parent, child);
    assert '.' in parent + "." + child by {
      assert (parent + "." + child)[|parent|] == '.';
    }
  }

  /** When `parent` already holds an object, every sibling of `child` keeps its value. */
  lemma ChangeNestedKeepsSiblings(rec: Record, parent: string, child: string, value: string)
    requires '.' !in parent && '.' !in child
    requires parent in rec && rec[parent].Obj?
    ensures var r := Change(rec, parent + "." + child, value);
      && r[parent].Obj?
      && r[parent].fields.Keys == rec[parent].fields.Keys + {child}
      && r[parent].fields[child] == Str(value)
      && (forall k :: k in rec[parent].fields && k != child ==> r[parent].fields[k] == rec[parent].fields[k])
  {
    ChangeNested(rec, parent, child, value);
  }

  /** An input name without a dot sets that one top-level field and nothing else. */
  lemma ChangeTopLevel(rec: Record, name: string, value: string)
    requires '.' !in name
    ensures var r := Change(rec, name, value);
      && r.Keys == rec.Keys + {name}
      && r[name] == Str(value)
      && (forall k :: k in rec && k != name ==> r[k] == rec[k])
  {
  }

  /** Only the first two segments of a dotted name matter: "a.b.c" acts as "a.b". */
  lemma {:induction false} ChangeIgnoresDeeperSegments(rec: Record, parent: string, child: string, rest: string, value: string)
    requires '.' !in parent && '.' !in child
    ensures Change(rec, parent + "." + child + "." + rest, value) == Change(rec, parent + "." + child, value)
  {
    var long := parent + "." + child + "." + rest;
    assert long == parent + "." + (child + "." + rest);
    SplitOnHead(parent, '.', child + "." + rest);
    SplitOnHead(child, '.', rest);
    DottedPath(parent, child);
    assert '.' in long by {
      assert long[|parent|] == '.';
    }
    assert '.' in parent + "." + child by {
      assert (parent + "." + child)[|parent|] == '.';
    }
  }
}

/** Positions inside a value, through maps and lists alike. */
module Positions {
  import opened Values
  import opened Paths

  datatype Move = Key(key: string) | Item(index: nat)

  /** The value at a position. */
  function At(v: Value, pos: seq<Move>): Option<Value>
    decreases |pos|
  {
    if pos == [] then Some(v)
    else match (v, pos[0])
      case (Map(m), Key(k)) => if k in m then At(m[k], pos[1..]) else None
      case (List(items), Item(i)) => if i < |items| then At(items[i], pos[1..]) else None
      case _ => None
  }

  predicate TextAt(v: Value, pos: seq<Move>, s: string) { At(v, pos) == Some(Text(s)) }

  /** The dotted path of a position below path; an element has that of its list. */
  function NameAt(path: string, pos: seq<Move>): string
    decreases |pos|
  {
    if pos == [] then path
    else NameAt(if pos[0].Key? then ChildPath(path, pos[0].key) else path, pos[1..])
  }

  function Keys(keys: seq<string>): seq<Move> { seq(|keys|, i requires 0 <= i < |keys| => Key(keys[i])) }

  /** Dotted paths are the positions made of keys. */
  lemma {:induction false} AtKeys(t: Tree, keys: Path, path: string)
    ensures At(Map(t), Keys(keys)) == GetPath(t, keys)
    ensures NameAt(path, Keys(keys)) == PathOf(path, keys)
    decreases |keys|
  {
    assert Keys(keys)[1..] == Keys(keys[1..]);
    if |keys| > 1 {
      if keys[0] in t && t[keys[0]].Map? {
        AtKeys(t[keys[0]].entries, keys[1..], ChildPath(path, keys[0]));
      } else {
        AtKeys(map[], keys[1..], ChildPath(path, keys[0]));
        if keys[0] in t {
          assert At(t[keys[0]], Keys(keys[1..])).None?;
        }
      }
    }
  }

  /** One step into a value. */
  lemma AtInside(v: Value, pos: seq<Move>)
    ensures v.Map? && pos != [] && pos[0].Key? && pos[0].key in v.entries ==>
              At(v, pos) == At(v.entries[pos[0].key], pos[1..])
    ensures v.List? && pos != [] && pos[0].Item? && pos[0].index < |v.items| ==>
              At(v, pos) == At(v.items[pos[0].index], pos[1..])
  {
  }

  /** A string inside an entry or an element is one inside the whole. */
  lemma TextOutside(v: Value, step: Move, pos: seq<Move>, s: string)
    requires v.Map? && step.Key? && step.key in v.entries ==> TextAt(v.entries[step.key], pos, s)
    requires v.List? && step.Item? && step.index < |v.items| ==> TextAt(v.items[step.index], pos, s)
    requires (v.Map? && step.Key? && step.key in v.entries) || (v.List? && step.Item? && step.index < |v.items|)
    ensures TextAt(v, [step] + pos, s)
  {
    assert ([step] + pos)[1..] == pos;
  }

  /** Where a string is. */
  lemma TextInside(v: Value, pos: seq<Move>, s: string)
    requires TextAt(v, pos, s)
    ensures match v
            case Map(m) => pos != [] && pos[0].Key? && pos[0].key in m && TextAt(m[pos[0].key], pos[1..], s)
            case List(items) =>
              pos != [] && pos[0].Item? && pos[0].index < |items| && TextAt(items[pos[0].index], pos[1..], s)
            case Text(t) => pos == [] && t == s
            case _ => false
  {
  }

  lemma {:induction false} AtThen(v: Value, pos: seq<Move>, more: seq<Move>, path: string)
    requires At(v, pos).Some?
    ensures At(v, pos + more) == At(At(v, pos).value, more)
    ensures NameAt(path, pos + more) == NameAt(NameAt(path, pos), more)
    decreases |pos|
  {
    if pos != [] {
      assert (pos + more)[1..] == pos[1..] + more;
      var child := if pos[0].Key? then ChildPath(path, pos[0].key) else path;
      AtThen(if v.Map? then v.entries[pos[0].key] else v.items[pos[0].index], pos[1..], more, child);
    } else {
      assert [] + more == more;
    }
  }
}

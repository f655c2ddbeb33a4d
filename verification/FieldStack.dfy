/** The field stack of the packer and the unpacker, and outcomes with exceptions. */
module FieldStack {
  import opened Types
  import opened Packing
  import opened Unpacking

  datatype Outcome<+T> = Done(value: T) | Thrown(error: ErrorKind)

  function LevelText(l: Level): string {
    match l
    case Member(name) => name
    case Index(i) => "[" + IntText(i) + "]"
    case QuotedKey(key) => "[\"" + key + "\"]"
    case BareKey(key) => "[" + key + "]"
  }

  function Names(path: seq<Frame>): (r: seq<string>)
    ensures |r| == |path|
  {
    seq(|path|, i requires 0 <= i < |path| => LevelText(path[i].level))
  }

  function TypesOf(path: seq<Frame>): (r: seq<Option<TypeDef>>)
    ensures |r| == |path|
  {
    seq(|path|, i requires 0 <= i < |path| => path[i].typ)
  }

  /** The stack after an outcome: unchanged on success, extended by the path of the error otherwise. */
  ghost predicate Stacked<T, S>(spec: Result<T>, r: Outcome<S>, names: seq<string>, types: seq<Option<TypeDef>>,
                                names': seq<string>, types': seq<Option<TypeDef>>) {
    match spec
    case Ok(_) => r.Done? && names' == names && types' == types
    case Err(e, path) => r == Thrown(e) && names' == names + Names(path) && types' == types + TypesOf(path)
  }

  /** The outcome of a computation that enters no level. */
  function AsOutcome<T>(spec: Result<T>): Outcome<T> {
    match spec case Ok(x) => Done(x) case Err(e, _) => Thrown(e)
  }

  /** An error of the value itself leaves nothing on the stack. */
  lemma NoLevels(names: seq<string>, types: seq<Option<TypeDef>>)
    ensures names + Names([]) == names && types + TypesOf([]) == types
  {
  }

  /** Inside a level the stack holds it; a throw leaves it there, under the path of the error. */
  lemma StackedInLevel<T, S>(f: Frame, spec: Result<T>, r: Outcome<S>, names: seq<string>, types: seq<Option<TypeDef>>,
                             names': seq<string>, types': seq<Option<TypeDef>>)
    requires Stacked(spec, r, names + [LevelText(f.level)], types + [f.typ], names', types')
    ensures spec.Err? ==> Stacked(Within(f, spec), r, names, types, names', types')
    ensures spec.Ok? ==> Within(f, spec) == spec && Stacked(spec, r, names, types, names, types)
  {
    if spec.Err? {
      assert Names([f] + spec.path) == [LevelText(f.level)] + Names(spec.path);
      assert TypesOf([f] + spec.path) == [f.typ] + TypesOf(spec.path);
    }
  }

  /** Throwing right after entering a level. */
  lemma ThrownInLevel<T, S>(f: Frame, e: ErrorKind, names: seq<string>, types: seq<Option<TypeDef>>)
    ensures Stacked<T, S>(Within(f, Fail(e)), Thrown(e), names, types, names + [LevelText(f.level)], types + [f.typ])
  {
    assert Names([f]) == [LevelText(f.level)] && TypesOf([f]) == [f.typ];
  }

  /** Results already appended, followed by the result for the rest. */
  function Prepend<T>(done: seq<T>, rest: Result<seq<T>>): Result<seq<T>> {
    if rest.Ok? then Ok(done + rest.value) else rest
  }

  lemma PrependNothing<T>(r: Result<seq<T>>)
    ensures Prepend([], r) == r
  {
    if r.Ok? { assert [] + r.value == r.value; }
  }

  lemma PrependOne<T>(done: seq<T>, x: T, rest: Result<seq<T>>)
    ensures Prepend(done, Prepend([x], rest)) == Prepend(done + [x], rest)
  {
    if rest.Ok? { assert done + ([x] + rest.value) == done + [x] + rest.value; }
  }

  // ----- the text of a level

  /** The text of a level: the name of a member as it is; an index in brackets, as a decimal number that reads as
      that index; a key in brackets, in quotes or bare. */
  lemma LevelTexts(l: Level)
    ensures var s := LevelText(l);
            && (l.Member? ==> s == l.name)
            && (!l.Member? ==> |s| >= 2 && s[0] == '[' && s[|s| - 1] == ']')
            && (l.Index? && INT32_MIN <= l.i <= INT32_MAX ==> ParseInt32(s[1..|s| - 1]) == Just(l.i))
            && (l.BareKey? ==> s[1..|s| - 1] == l.key)
            && (l.QuotedKey? ==> |s| >= 4 && s[1] == '"' && s[|s| - 2] == '"' && s[2..|s| - 2] == l.key)
  {
    if l.Index? && INT32_MIN <= l.i <= INT32_MAX {
      NumbersAsNames(l.i);
      var s := LevelText(l);
      assert s[1..|s| - 1] == IntText(l.i);
    }
  }
}

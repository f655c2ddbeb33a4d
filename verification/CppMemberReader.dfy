/** Reading the printed return types of members back. */
module CppMemberReader {
  import opened Types
  import opened CppTypes
  import opened CppDeclarations
  import opened CppReader

  /** What stands between the brackets of a holder of this name, in a shared pointer. */
  function Held(s: string, holder: string): Option<string> {
    if Head(s) != "RR_SHARED_PTR" || Body(s).Nothing? then Nothing
    else
      var inner := Body(s).value;
      if Head(inner) != holder then Nothing else Body(inner)
  }

  /** Texts one after the other, with a comma and a blank between them. */
  function Listed(texts: seq<string>): string {
    if texts == [] then "" else if |texts| == 1 then texts[0] else texts[0] + ", " + Listed(texts[1..])
  }

  function Texts(ts: seq<TypeDef>): seq<string> {
    seq(|ts|, i requires 0 <= i < |ts| => VariableType(ts[i], true))
  }

  lemma {:induction false} TypeListIsListed(ts: seq<TypeDef>)
    ensures TypeList(ts) == Listed(Texts(ts))
  {
    hide VariableType;
    if |ts| > 1 {
      TypeListIsListed(ts[1..]);
      assert Texts(ts)[1..] == Texts(ts[1..]);
    }
  }

  lemma Ends(head: string, x: string)
    ensures var s := Angle(head, x); s != "" && !IsBlank(s[|s| - 1]) && TrimRight(s) == s && TrimRight(s + " ") == s
  {
    TrimsNothing(Angle(head, x));
  }

  lemma SharedHolds(holder: string, x: string)
    requires forall c | c in holder :: c != '<'
    ensures Held(Shared(Angle(holder, x) + " "), holder) == Just(TrimRight(x))
  {
    hide TrimRight, Angle, Head, Body;
    SharedHasNoBrackets();
    AngleReads("RR_SHARED_PTR", Angle(holder, x) + " ");
    Ends(holder, x);
    AngleReads(holder, x);
  }

  lemma SharedHasNoBrackets()
    ensures forall c | c in "RR_SHARED_PTR" :: c != '<'
  {
  }

  lemma HoldersHaveNoBrackets()
    ensures forall h | h in ["RobotRaconteur::Pipe", "RobotRaconteur::Wire", "RobotRaconteur::Generator"] ::
              forall c | c in h :: c != '<'
  {
    MoreWords();
  }

  lemma CallbackHoldersHaveNoBrackets()
    ensures forall h | h in ["RobotRaconteur::Callback", "boost::function", "boost::signals2::signal"] ::
              forall c | c in h :: c != '<'
  {
    CallbackWords();
    SignalWords();
  }

  /** A printed type ends in no blank. */
  lemma TypeEnds(t: TypeDef, scalar: bool)
    requires Word(TypeString(t)) && VariableType(t, scalar) != ""
    ensures TrimRight(VariableType(t, scalar) + " ") == VariableType(t, scalar)
  {
    hide VariableType, TrimRight, Closed;
    PrintedTypes(t, scalar);
    ClosedEnds(VariableType(t, scalar));
    TrimsNothing(VariableType(t, scalar));
  }

  lemma ClosedEnds(s: string)
    requires Closed(s, 0) && s != ""
    ensures !IsBlank(s[|s| - 1])
  {
    LastIsNoBlank(s, 0);
  }

  /** The return type of a pipe, wire or memory says which it is and of what elements; that of a property or
      function is its type, and an object reference holds the object's name. */
  lemma {:induction false} HoldersRead(m: Member)
    requires WordsIn(m)
    ensures m.Getter? && TypeNameOk(m.t) ==> ReadType(ReturnType(m)) == Just(MeaningOf(m.t, true))
    ensures m.Function? && TypeNameOk(m.t) ==> ReadType(ReturnType(m)) == Just(MeaningOf(m.t, true))
    ensures m.Setter? ==> ReadType(ReturnType(m)) == Just(Nothing_)
    ensures m.Pipe? && VariableType(m.t, true) != "" ==>
              Held(ReturnType(m), "RobotRaconteur::Pipe") == Just(VariableType(m.t, true))
    ensures m.Wire? && VariableType(m.t, true) != "" ==>
              Held(ReturnType(m), "RobotRaconteur::Wire") == Just(VariableType(m.t, true))
    ensures m.Memory? && m.element != "" ==> Held(ReturnType(m), "RobotRaconteur::" + m.kind) == Just(m.element)
  {
    hide VariableType, ReadType, MeaningOf, TypeNameOk, TrimRight, Angle, Held, Word;
    HoldersHaveNoBrackets();
    match m
    case Getter(t) => if TypeNameOk(t) { TypesRead(t, true); }
    case Function(t) => if TypeNameOk(t) { TypesRead(t, true); }
    case Setter => VoidReads();
    case Pipe(t) => if VariableType(t, true) != "" { HolderReads("RobotRaconteur::Pipe", t); }
    case Wire(t) => if VariableType(t, true) != "" { HolderReads("RobotRaconteur::Wire", t); }
    case Memory(k, e) => if e != "" { MemoryReads(k, e); }
    case _ =>
  }

  lemma HolderReads(holder: string, t: TypeDef)
    requires (forall c | c in holder :: c != '<') && Word(TypeString(t)) && VariableType(t, true) != ""
    ensures Held(Shared(Angle(holder, VariableType(t, true) + " ") + " "), holder) == Just(VariableType(t, true))
  {
    hide VariableType, TrimRight, Angle, Held, Word;
    SharedHolds(holder, VariableType(t, true) + " ");
    TypeEnds(t, true);
  }

  lemma MemoryReads(k: string, e: string)
    requires Word(k) && Word(e) && e != ""
    ensures Held(Shared(Angle("RobotRaconteur::" + k, e + " ") + " "), "RobotRaconteur::" + k) == Just(e)
  {
    hide TrimRight, Angle, Held;
    SignalWords();
    WordsCat("RobotRaconteur::", k);
    assert forall c | c in "RobotRaconteur::" + k :: c != '<';
    SharedHolds("RobotRaconteur::" + k, e + " ");
    TrimsNothing(e);
  }

  /** Events and callbacks list the types of their parameters in order, and a generator what it returns before
      what it takes. */
  lemma {:induction false} ParametersRead(m: Member)
    requires WordsIn(m)
    ensures m.Event? ==>
              ReturnType(m) == Angle("boost::signals2::signal", "void (" + Listed(Texts(m.params)) + ")") + "&"
    ensures m.Callback? ==>
              Held(ReturnType(m), "RobotRaconteur::Callback")
              == Just(Angle("boost::function",
                            VariableType(m.result, true) + "(" + Listed(Texts(m.params)) + ")" + " "))
    ensures m.Generator? && OrVoid(m.taken) != "" ==>
              Held(ReturnType(m), "RobotRaconteur::Generator") == Just(OrVoid(m.returned) + "," + OrVoid(m.taken))
  {
    hide VariableType, TrimRight, Angle, Held, Word, OrVoid, Listed, Texts, TypeList;
    match m
    case Event(ts) => TypeListIsListed(ts);
    case Callback(r, ts) =>
      CallbackHoldersHaveNoBrackets();
      TypeListIsListed(ts);
      var x := VariableType(r, true) + ("(" + TypeList(ts) + ")" + " ");
      assert x == VariableType(r, true) + "(" + Listed(Texts(ts)) + ")" + " ";
      SharedHolds("RobotRaconteur::Callback", Angle("boost::function", x) + " ");
      Ends("boost::function", x);
    case Generator(r, p) =>
      if OrVoid(p) != "" {
        GeneratorReads(r, p);
      }
    case _ =>
  }

  lemma GeneratorReads(r: Option<TypeDef>, p: Option<TypeDef>)
    requires WordsIn(Generator(r, p)) && OrVoid(p) != ""
    ensures Held(ReturnType(Generator(r, p)), "RobotRaconteur::Generator") == Just(OrVoid(r) + "," + OrVoid(p))
  {
    OrVoidCloses(p);
    hide VariableType, TrimRight, Angle, Held, Word, OrVoid, Closed, Shared;
    ClosedEnds(OrVoid(p));
    PairHeld(OrVoid(r), OrVoid(p));
  }

  lemma PairHeld(a: string, b: string)
    requires b != "" && !IsBlank(b[|b| - 1])
    ensures Held(Shared(Angle("RobotRaconteur::Generator", a + ("," + (b + " "))) + " "), "RobotRaconteur::Generator")
         == Just(a + "," + b)
  {
    hide TrimRight, Angle, Held, Shared;
    HoldersHaveNoBrackets();
    TrimsNothing(b);
    var x := a + ("," + (b + " "));
    SharedHolds("RobotRaconteur::Generator", x);
    assert x == (a + ",") + (b + " ");
    TrimsTail(a + ",", b + " ");
  }

  /** An object reference is a shared pointer to the object's class. */
  lemma ObjRefReads(o: string)
    requires NameOk(o)
    ensures var s := ReturnType(ObjRef(o));
            Head(s) == "RR_SHARED_PTR" && Body(s).Just? && ReadName(Body(s).value) == Just(Parts(o))
  {
    hide TrimRight, Angle, Head, Body, FixQualifiedName, Parts, PartsOk, ReadName, FirstOf, NameChars;
    SharedHasNoBrackets();
    NameText(o);
    NameEnds(FixQualifiedName(o));
    ReadsName(o);
    TrimsNothing(FixQualifiedName(o));
    AngleReads("RR_SHARED_PTR", FixQualifiedName(o) + " ");
  }
}

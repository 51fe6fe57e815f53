/** Where the lookup agrees with RFC 6901, and where it is more lenient. */
module JsonPointerStandard {
  import opened Decimals
  import opened JsonPointers
  import opened Options

  /** Section 3: every tilde introduces an escape. */
  predicate WellEscaped(token: string) {
    forall i :: 0 <= i < |token| && token[i] == '~' ==> i + 1 < |token| && (token[i+1] == '0' || token[i+1] == '1')
  }

  /** Section 4: an array index is zero, or digits without a leading zero; it has no sign. */
  predicate IsArrayIndex(token: string) {
    token == "0" || (token != [] && token[0] != '0' && forall i :: 0 <= i < |token| ==> IsDigit(token[i]))
  }

  /** The evaluation of section 4, nothing if it fails. */
  ghost function Evaluate(value: Json, tokens: seq<string>): Option<Json> {
    if tokens == [] then Some(value)
    else match Step(value, tokens[0])
      case None => None
      case Some(next) => Evaluate(next, tokens[1..])
  }

  ghost function Step(value: Json, token: string): Option<Json> {
    if !WellEscaped(token) then None
    else match value
      case Object(members) => if UnescapeOnce(token) in members then Some(members[UnescapeOnce(token)]) else None
      case Array(items) => if IsArrayIndex(token) && Number(token) < |items| then Some(items[Number(token)]) else None
      case _ => None
  }

  ghost function Number(token: string): nat {
    match Decimal(token) case None => 0 case Some(n) => n
  }

  /** What the lookup would report for an evaluation: null counts as missing. */
  ghost function Reported(r: Option<Json>): Lookup {
    if r.None? || r.value == Null then Missing else Found(r.value)
  }

  /** The standard allows the token at this value. */
  predicate IsStandard(value: Json, token: string) {
    WellEscaped(token) && (value.Array? ==> IsArrayIndex(token))
  }

  /** The standard allows every token that the lookup uses on its way. */
  predicate AllStandard(value: Json, tokens: seq<string>) {
    tokens == []
    || (IsStandard(value, tokens[0])
        && match Child(value, tokens[0])
           case None => true
           case Some(next) => AllStandard(next, tokens[1..]))
  }

  lemma {:induction false} DigitsAreANumber(s: string)
    requires s != [] && forall i :: 0 <= i < |s| ==> IsDigit(s[i])
    ensures Decimal(s).Some? && Atoi(s) == Some(Decimal(s).value)
    decreases |s|
  {
    DigitsHaveAValue(s);
    assert IsDigit(s[0]);
  }

  lemma {:induction false} DigitsHaveAValue(s: string)
    requires s != [] && forall i :: 0 <= i < |s| ==> IsDigit(s[i])
    ensures Decimal(s).Some?
    decreases |s|
  {
    if |s| > 1 {
      DigitsHaveAValue(s[..|s|-1]);
    }
  }

  /** On a token that the standard allows, the lookup takes the standard's step, except that it does not
      step to a null member of an object. */
  lemma StandardStep(value: Json, token: string)
    requires IsStandard(value, token)
    ensures Child(value, token) == if value.Object? && Step(value, token) == Some(Null) then None else Step(value, token)
  {
    TwoPassesAreOne(token);
    if value.Array? {
      assert forall i :: 0 <= i < |token| ==> IsDigit(token[i]);
      DigitsNeedNoEscape(token);
      DigitsAreANumber(token);
    }
  }

  lemma {:induction false} FoundIsEvaluated(value: Json, tokens: seq<string>, target: Json)
    requires AllStandard(value, tokens) && ResolveTokens(value, tokens) == Found(target)
    ensures Evaluate(value, tokens) == Some(target)
    decreases |tokens|
  {
    if tokens != [] {
      StandardStep(value, tokens[0]);
      FoundIsEvaluated(Child(value, tokens[0]).value, tokens[1..], target);
    }
  }

  /** Whatever the standard finds, other than null, the lookup finds. */
  lemma {:induction false} EvaluatedIsFound(value: Json, tokens: seq<string>, target: Json)
    requires Evaluate(value, tokens) == Some(target) && target != Null
    ensures AllStandard(value, tokens) && ResolveTokens(value, tokens) == Found(target)
    decreases |tokens|
  {
    if tokens != [] {
      var next := Step(value, tokens[0]).value;
      StandardStep(value, tokens[0]);
      EvaluatedIsFound(next, tokens[1..], target);
      assert next == Null ==> tokens[1..] == [];
    }
  }

  /** The exact condition: lookup and standard agree unless the lookup finds a value by a token that the
      standard does not allow, which is an index with a sign or leading zeros, or a tilde without its digit. */
  lemma AgreesIff(value: Json, tokens: seq<string>)
    ensures ResolveTokens(value, tokens) == Reported(Evaluate(value, tokens))
       <==> (ResolveTokens(value, tokens).Found? ==> AllStandard(value, tokens))
  {
    var found, standard := ResolveTokens(value, tokens), Evaluate(value, tokens);
    NeverInvalid(value, tokens);
    if standard.Some? && standard.value != Null {
      EvaluatedIsFound(value, tokens, standard.value);
    }
    if found.Found? && AllStandard(value, tokens) {
      FoundIsEvaluated(value, tokens, found.value);
      FoundIsNotNull(value, tokens, found.value);
    }
  }

  lemma FoundIsNotNull(value: Json, tokens: seq<string>, target: Json)
    requires ResolveTokens(value, tokens) == Found(target)
    ensures target != Null
  {
    FoundIffReached(value, tokens, target);
  }

  lemma {:induction false} NeverInvalid(value: Json, tokens: seq<string>)
    ensures ResolveTokens(value, tokens) != InvalidPointer
    decreases |tokens|
  {
    if tokens != [] && Child(value, tokens[0]).Some? {
      NeverInvalid(Child(value, tokens[0]).value, tokens[1..]);
    }
  }

  /** The standard allows the token wherever the lookup would use it. */
  predicate IsPlain(token: string) {
    WellEscaped(token) && (ReadsAsIndex(token) ==> IsArrayIndex(token))
  }

  predicate ReadsAsIndex(token: string) {
    match Atoi(Unescape(token)) case None => false case Some(i) => i >= 0
  }

  ghost predicate AllPlain(tokens: seq<string>) {
    forall i :: 0 <= i < |tokens| ==> IsPlain(tokens[i])
  }

  lemma {:induction false} PlainIsStandard(value: Json, tokens: seq<string>)
    requires AllPlain(tokens) && ResolveTokens(value, tokens).Found?
    ensures AllStandard(value, tokens)
    decreases |tokens|
  {
    if tokens != [] {
      assert IsPlain(tokens[0]);
      PlainIsStandard(Child(value, tokens[0]).value, tokens[1..]);
    }
  }

  /** A document in which the lookup finds a leaf under the tokens, by every index that is not the standard's. */
  ghost function Witness(tokens: seq<string>): (value: Json)
    ensures value != Null
  {
    if tokens == [] then Leaf("")
    else
      var below, token := Witness(tokens[1..]), tokens[0];
      if WellEscaped(token) && !IsPlain(token) then
        var i := Atoi(Unescape(token)).value;
        Array(seq(i + 1, _ => below))
      else
        Object(map[Unescape(token) := below])
  }

  lemma {:induction false} WitnessIsFound(tokens: seq<string>)
    ensures ResolveTokens(Witness(tokens), tokens).Found?
    ensures AllStandard(Witness(tokens), tokens) ==> AllPlain(tokens)
    decreases |tokens|
  {
    if tokens != [] {
      WitnessIsFound(tokens[1..]);
      assert Child(Witness(tokens), tokens[0]) == Some(Witness(tokens[1..]));
      assert AllPlain(tokens[1..]) && IsPlain(tokens[0]) ==> AllPlain(tokens) by {
        assert tokens == [tokens[0]] + tokens[1..];
      }
    }
  }

  ghost predicate Agrees(value: Json, tokens: seq<string>) {
    ResolveTokens(value, tokens) == Reported(Evaluate(value, tokens))
  }

  /** Over all documents the tokens alone decide: lookup and standard agree on every document iff each token has
      only whole escapes and is, if it reads as an index, written without a sign and without leading zeros. */
  lemma AgreesEverywhereIff(tokens: seq<string>)
    ensures (forall value :: Agrees(value, tokens)) <==> AllPlain(tokens)
  {
    if AllPlain(tokens) {
      forall value ensures Agrees(value, tokens) {
        if ResolveTokens(value, tokens).Found? {
          PlainIsStandard(value, tokens);
        }
        AgreesIff(value, tokens);
      }
    }
    if forall value :: Agrees(value, tokens) {
      assert Agrees(Witness(tokens), tokens);
      AgreesIff(Witness(tokens), tokens);
      WitnessIsFound(tokens);
    }
  }

  lemma LenientIndex(items: seq<Json>, token: string, i: nat)
    requires WellEscaped(token) && !IsArrayIndex(token) && Atoi(Unescape(token)) == Some(i) && i < |items|
    requires items[i] != Null
    ensures ResolveTokens(Array(items), [token]) == Found(items[i]) && Evaluate(Array(items), [token]) == None
  {
  }

  /** Leading zeros and signs are accepted in indexes, and a lone tilde in a key. */
  lemma LenientTokens(a: Json, b: Json)
    requires a != Null && b != Null
    ensures ResolveTokens(Array([a, b]), ["01"]) == Found(b) && Evaluate(Array([a, b]), ["01"]) == None
    ensures ResolveTokens(Array([a, b]), ["+1"]) == Found(b) && Evaluate(Array([a, b]), ["+1"]) == None
    ensures ResolveTokens(Array([a, b]), ["-0"]) == Found(a) && Evaluate(Array([a, b]), ["-0"]) == None
    ensures ResolveTokens(Object(map["~" := a]), ["~"]) == Found(a) && Evaluate(Object(map["~" := a]), ["~"]) == None
  {
    SignedAndPadded();
    LenientIndex([a, b], "01", 1);
    LenientIndex([a, b], "+1", 1);
    LenientIndex([a, b], "-0", 0);
    LoneTilde(a);
  }

  lemma SignedAndPadded()
    ensures forall token :: token == "01" || token == "+1" || token == "-0" ==> WellEscaped(token) && !IsArrayIndex(token)
    ensures Atoi(Unescape("01")) == Atoi(Unescape("+1")) == Some(1) && Atoi(Unescape("-0")) == Some(0)
  {
    assert !IsDigit("+1"[0]) && !IsDigit("-0"[0]);
  }

  lemma LoneTilde(a: Json)
    requires a != Null
    ensures ResolveTokens(Object(map["~" := a]), ["~"]) == Found(a) && Evaluate(Object(map["~" := a]), ["~"]) == None
  {
    assert "~"[0] == '~' && !WellEscaped("~");
    assert Unescape("~") == "~";
  }
}

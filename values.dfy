/** A text value of a node field (`Value\Text`): its string is resolved
    once, along the locale fallback chain when the field is translated, and
    then remembered. */
module Values {
  import opened Errors
  import opened Strings

  /** The value along the fallback chain: the first locale whose stored
      value is truthy wins; none gives "". A null stored value is an absent key. */
  function Resolve(chain: seq<string>, values: map<string, string>): string
  {
    if chain == [] then ""
    else if chain[0] in values && Truthy(values[chain[0]]) then values[chain[0]]
    else Resolve(chain[1..], values)
  }

  /** The locale at `k` holds a truthy value and none before it does. */
  predicate FirstTruthyAt(chain: seq<string>, values: map<string, string>, k: int) {
    && 0 <= k < |chain|
    && chain[k] in values && Truthy(values[chain[k]])
    && forall m :: 0 <= m < k ==> !(chain[m] in values && Truthy(values[chain[m]]))
  }

  /** The resolved value is the one of the first locale of the chain with a
      truthy value, and "" exactly when no locale of the chain has one;
      falsy values ("" and "0") are passed over. */
  lemma {:induction false} ResolveMeaning(chain: seq<string>, values: map<string, string>)
    ensures forall k :: FirstTruthyAt(chain, values, k) ==> Resolve(chain, values) == values[chain[k]]
    ensures (forall k :: 0 <= k < |chain| ==> !(chain[k] in values && Truthy(values[chain[k]])))
      <==> Resolve(chain, values) == ""
  {
    if chain != [] {
      ResolveMeaning(chain[1..], values);
      forall k | FirstTruthyAt(chain, values, k)
        ensures Resolve(chain, values) == values[chain[k]]
      {
        if k > 0 {
          assert FirstTruthyAt(chain[1..], values, k - 1);
        }
      }
      if Resolve(chain, values) == "" {
        forall k | 0 <= k < |chain|
          ensures !(chain[k] in values && Truthy(values[chain[k]]))
        {
          if k > 0 {
            assert chain[k] == chain[1..][k - 1];
          }
        }
      }
    }
  }

  class Text {
    /** Whether the field is translated. */
    const translate: bool
    /** The requested locale followed by its fallbacks, ending where
        `fallback()` gives null. */
    const chain: seq<string>
    const defaultLocale: string
    /** `data['value']`: the stored value per locale id. */
    const values: map<string, string>
    /** The remembered result of `unwrap`, unset at first. */
    var memo: Option<string>

    /** What `unwrap` gives for this text. */
    function Unwrapped(): string
      reads this
    {
      if translate then Resolve(chain, values)
      else if defaultLocale in values then values[defaultLocale]
      else ""
    }

    /** A remembered value is the text's value. */
    predicate Valid()
      reads this
    {
      memo.Some? ==> memo.value == Unwrapped()
    }

    constructor (translate: bool, chain: seq<string>, defaultLocale: string, values: map<string, string>)
      ensures Valid()
      ensures this.translate == translate && this.chain == chain
      ensures this.defaultLocale == defaultLocale && this.values == values
      ensures memo == None
    {
      this.translate := translate;
      this.chain := chain;
      this.defaultLocale := defaultLocale;
      this.values := values;
      memo := None;
    }

    /** `unwrap()`: the remembered value if there is one, otherwise the
        resolved value, which is then remembered; so every call gives the same. */
    method Unwrap() returns (v: string)
      requires Valid()
      modifies this
      ensures Valid()
      ensures v == Unwrapped()
      ensures memo == Some(v)
      ensures old(memo).Some? ==> v == old(memo).value
    {
      if memo.Some? {
        return memo.value;
      }
      if translate {
        var n := 0;
        while n < |chain|
          invariant 0 <= n <= |chain|
          invariant Resolve(chain[n..], values) == Resolve(chain, values)
        {
          var id := chain[n];
          if id in values && Truthy(values[id]) {
            memo := Some(values[id]);
            return values[id];
          }
          assert chain[n..][1..] == chain[n + 1..];
          n := n + 1;
        }
        memo := Some("");
        return "";
      }
      v := if defaultLocale in values then values[defaultLocale] else "";
      memo := Some(v);
    }

    /** `isset()`: whether the value is truthy. */
    method Isset() returns (b: bool)
      requires Valid()
      modifies this
      ensures Valid() && memo == Some(Unwrapped())
      ensures b <==> Truthy(Unwrapped())
    {
      var v := Unwrap();
      b := Truthy(v);
    }

    /** `json()`: the value itself. */
    method Json() returns (v: string)
      requires Valid()
      modifies this
      ensures Valid() && memo == Some(Unwrapped())
      ensures v == Unwrapped()
    {
      v := Unwrap();
    }
  }
}

/** Result types, and searching in text, shared by every component of the model. */
module Base {
  datatype Option<+T> = None | Some(value: T)

  datatype Result<+T, +E> = Ok(value: T) | Err(error: E)

  /** Identifiers that the program draws from `uuid4`. */
  type Uuid = nat

  lemma SubsetSize<T>(a: set<T>, b: set<T>)
    requires a <= b
    ensures |a| <= |b|
  {
    assert b == a + (b - a);
  }

  predicate Contains(needle: string, text: string) {
    needle <= text || (text != "" && Contains(needle, text[1..]))
  }

  ghost predicate Within(word: string, text: string) {
    exists before, after :: text == before + word + after
  }

  lemma {:induction false} ContainsIff(word: string, text: string)
    ensures Contains(word, text) <==> Within(word, text)
  {
    if word <= text {
      assert text == [] + word + text[|word|..];
    } else if text != [] {
      ContainsIff(word, text[1..]);
      if Within(word, text[1..]) {
        var before, after :| text[1..] == before + word + after;
        assert text == (text[..1] + before) + word + after;
      }
      if Within(word, text) {
        var before, after :| text == before + word + after;
        assert text[|before|..|before| + |word|] == word;
        assert before != [] && text[1..] == before[1..] + word + after;
      }
    }
  }
}

/** The object tag under which an entrypoint's function is created and published. */
module ObjectTags {
  const WRAPPER_CALLABLE := "handler"

  predicate TagSafe(c: char) {
    'a' <= c <= 'z' || 'A' <= c <= 'Z' || '0' <= c <= '9' || c == '_' || c == '-' || c == '.'
  }

  function Safe(c: char): char { if TagSafe(c) then c else '_' }

  /** `sanitize_object_tag`: a tag-safe name is its own tag; every tag is non-empty and tag-safe. */
  function Sanitize(entrypoint: string): (tag: string)
    ensures tag != "" && forall i :: 0 <= i < |tag| ==> TagSafe(tag[i])
    ensures entrypoint != "" && (forall i :: 0 <= i < |entrypoint| ==> TagSafe(entrypoint[i])) ==> tag == entrypoint
  {
    if entrypoint == "" then WRAPPER_CALLABLE
    else seq(|entrypoint|, i requires 0 <= i < |entrypoint| => Safe(entrypoint[i]))
  }

  predicate Plain(entrypoint: string) { entrypoint != "" && forall i :: 0 <= i < |entrypoint| ==> TagSafe(entrypoint[i]) }

  /** Two different names share a tag exactly when they agree up to unsafe characters, or one is empty and the other spells the callable. */
  lemma SharedTagIff(a: string, b: string)
    requires a != b
    ensures Sanitize(a) == Sanitize(b) <==>
      || (a != "" && |a| == |b| && forall i :: 0 <= i < |a| ==> Safe(a[i]) == Safe(b[i]))
      || (a == "" && b == WRAPPER_CALLABLE)
      || (b == "" && a == WRAPPER_CALLABLE)
  {
    if a != "" && b != "" {
      if |a| == |b| && forall i :: 0 <= i < |a| ==> Safe(a[i]) == Safe(b[i]) {
        assert Sanitize(a) == Sanitize(b);
      }
      if Sanitize(a) == Sanitize(b) {
        forall i | 0 <= i < |a| ensures Safe(a[i]) == Safe(b[i]) {
          assert Sanitize(a)[i] == Safe(a[i]);
          assert Sanitize(b)[i] == Safe(b[i]);
        }
      }
    } else {
      var other := if a == "" then b else a;
      if Sanitize(other) == WRAPPER_CALLABLE {
        SpellsCallable(other);
      }
    }
  }

  /** No underscore occurs in the callable's name, so only the callable itself is sanitized to it. */
  lemma SpellsCallable(a: string)
    requires a != "" && Sanitize(a) == WRAPPER_CALLABLE
    ensures a == WRAPPER_CALLABLE
  {
    forall i | 0 <= i < |a| ensures a[i] == WRAPPER_CALLABLE[i] {
      assert Sanitize(a)[i] == Safe(a[i]);
      assert WRAPPER_CALLABLE[i] != '_';
    }
  }

  /** The empty name's tag, the characters that are kept in place, and what all others become. */
  lemma TagMeans(entrypoint: string, i: nat)
    requires i < |entrypoint|
    ensures Sanitize("") == "handler"
    ensures |Sanitize(entrypoint)| == |entrypoint|
    ensures var c, t := entrypoint[i], Sanitize(entrypoint)[i];
      if 'a' <= c <= 'z' || 'A' <= c <= 'Z' || '0' <= c <= '9' || c == '_' || c == '-' || c == '.' then t == c else t == '_'
  {}

  /** So the defence against unusual names merges some of them. */
  lemma TagsCanCollide()
    ensures Sanitize("a b") == Sanitize("a_b") == "a_b"
  {
    assert Sanitize("a b") == ['a', '_', 'b'];
  }
}

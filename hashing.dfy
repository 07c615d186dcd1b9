/** The password hasher of pkg/hash, kept abstract: bcrypt is not modelled,
    only the two operations and the assumption the services rely on. */
module Hashing {
  import opened Wrappers
  import opened Errs

  /** `GenerateHash` and `CompareHash`: compare yields None for a match and an
      error otherwise. */
  datatype Hasher = Hasher(
    generate: string -> Result<string, Error>,
    compare: (string, string) -> Option<Error>)

  /** The assumption about the hash: a digest produced for `p` lets exactly `p`
      through. */
  ghost predicate Sound(h: Hasher)
  {
    forall p: string, q: string, digest: string ::
      h.generate(p) == Success(digest) ==> (h.compare(digest, q).None? <==> p == q)
  }

  /** The assumption can be met, so lemmas that rest on it are not vacuous. */
  lemma SoundHasherExists() returns (h: Hasher)
    ensures Sound(h)
  {
    var tag := "$2a$08$";
    h := Hasher(
      p => Success(tag + p),
      (digest, q) => if digest == tag + q then None else Some(Plain("hashedPassword is not the hash of the given password")));
    forall p: string, q: string, digest: string | h.generate(p) == Success(digest)
      ensures h.compare(digest, q).None? <==> p == q
    {
      assert digest == tag + p;
      if digest == tag + q {
        assert p == digest[|tag|..] == q;
      }
    }
  }
}

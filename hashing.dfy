/**
 * Password hashing (`hashPassword` in src/lib/utils.js): a digest of the salt
 * followed by the password, joined as JavaScript joins strings. The digest
 * itself (SHA-1) is left abstract.
 */
module Hashing {
  import opened Wrappers
  import opened Text

  datatype Hasher = Hasher(salt: string, digest: string -> string)

  /** `sha1(salt + password)`; an omitted password is joined as the text "undefined". */
  function HashPassword(h: Hasher, password: Option<string>): (r: string)
    ensures password.Some? ==> r == h.digest(h.salt + password.value)
    ensures password.None? ==> r == h.digest(h.salt + "undefined")
  {
    h.digest(h.salt + JsText(password))
  }

  /** A digest that never maps two inputs to the same hash. */
  ghost predicate Injective(h: Hasher) {
    forall a, b :: h.digest(a) == h.digest(b) ==> a == b
  }

  /** With an injective digest, two passwords hash alike exactly when their texts agree. */
  lemma HashDistinguishes(h: Hasher, p: Option<string>, q: Option<string>)
    requires Injective(h)
    ensures HashPassword(h, p) == HashPassword(h, q) <==> JsText(p) == JsText(q)
  {
    if HashPassword(h, p) == HashPassword(h, q) {
      var a, b := h.salt + JsText(p), h.salt + JsText(q);
      assert a == b;
      assert JsText(p) == a[|h.salt|..] && JsText(q) == b[|h.salt|..];
    }
  }

  /** An omitted password hashes like the literal password "undefined". */
  lemma OmittedPasswordHash(h: Hasher)
    ensures HashPassword(h, None) == HashPassword(h, Some("undefined"))
  {
  }
}

/** Session ids carry the name of the stack that issued them: `<stack>_<hex>`. */
module SessionIds {
  import opened Options

  const SEPARATOR: char := '_'

  function Namespaced(prefix: string, hex: string): string {
    prefix + [SEPARATOR] + hex
  }

  datatype Parts = Parts(prefix: string, hex: string)

  /** The broker's cut: at the first separator, wherever it is. */
  function Cut(id: string): Option<Parts> {
    if id == "" then None
    else if id[0] == SEPARATOR then Some(Parts("", id[1..]))
    else match Cut(id[1..])
      case None => None
      case Some(parts) => Some(Parts([id[0]] + parts.prefix, parts.hex))
  }

  /** How many characters the Lua class `[^_]` matches from the front. */
  function Span(s: string): (n: nat)
    ensures n <= |s|
  {
    if s == "" || s[0] == SEPARATOR then 0 else 1 + Span(s[1..])
  }

  /** The router's match of `^([^_]+)_` on the cookie; no cookie, no stack. */
  function CookieStack(cookie: Option<string>): Option<string> {
    match cookie
    case None => None
    case Some(id) =>
      var n := Span(id);
      if 1 <= n < |id| then Some(id[..n]) else None
  }

  lemma {:induction false} CutIsSpan(id: string)
    ensures Cut(id).Some? <==> Span(id) < |id|
    ensures Cut(id).Some? ==> Cut(id).value == Parts(id[..Span(id)], id[Span(id) + 1..])
    ensures SEPARATOR !in id[..Span(id)]
    ensures Span(id) < |id| ==> id[Span(id)] == SEPARATOR
  {
    if id != "" && id[0] != SEPARATOR {
      CutIsSpan(id[1..]);
      var n := Span(id[1..]);
      assert id[..n + 1] == [id[0]] + id[1..][..n];
      if n + 1 < |id| {
        assert id[n + 2..] == id[1..][n + 1..];
      }
    }
  }

  /** The router names a stack exactly when the broker's cut finds a non-empty prefix, and the same one. */
  lemma RouterAgreesWithBroker(id: string, stack: string)
    ensures CookieStack(Some(id)) == Some(stack) <==>
              stack != "" && Cut(id).Some? && Cut(id).value.prefix == stack
  {
    CutIsSpan(id);
  }

  lemma {:induction false} SpanOfNamespaced(prefix: string, hex: string)
    requires SEPARATOR !in prefix
    ensures Span(Namespaced(prefix, hex)) == |prefix|
  {
    if prefix != "" {
      assert Namespaced(prefix, hex)[1..] == Namespaced(prefix[1..], hex);
      SpanOfNamespaced(prefix[1..], hex);
    }
  }

  /** The cut undoes the namespacing exactly when the stack's name has no separator in it. */
  lemma {:induction false} CutInvertsNamespaced(prefix: string, hex: string)
    ensures Cut(Namespaced(prefix, hex)) == Some(Parts(prefix, hex)) <==> SEPARATOR !in prefix
  {
    var id := Namespaced(prefix, hex);
    CutIsSpan(id);
    if SEPARATOR !in prefix {
      SpanOfNamespaced(prefix, hex);
      assert id[..|prefix|] == prefix && id[|prefix| + 1..] == hex;
    }
  }

  /** Hence the router sends a cookie back to the very stack that issued it. */
  lemma RouterInvertsNamespaced(prefix: string, hex: string)
    requires prefix != ""
    ensures CookieStack(Some(Namespaced(prefix, hex))) == Some(prefix) <==> SEPARATOR !in prefix
  {
    CutInvertsNamespaced(prefix, hex);
    CutIsSpan(Namespaced(prefix, hex));
    RouterAgreesWithBroker(Namespaced(prefix, hex), prefix);
  }
}

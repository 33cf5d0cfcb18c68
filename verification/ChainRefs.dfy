/** The text form of a chain reference, `namespace/network`. */
module ChainRefs {
  import opened Types

  /** The position of the first slash, |s| if there is none. */
  function FirstSlash(s: string): (i: nat)
    ensures i <= |s| && forall j :: 0 <= j < i ==> s[j] != '/'
    ensures i < |s| ==> s[i] == '/'
  {
    if s == [] || s[0] == '/' then 0
    else 1 + FirstSlash(s[1..])
  }

  /** Splits at the first slash into at most two parts; anything but two parts is an error. */
  function ParseChain(repr: string): Option<ChainRef> {
    var i := FirstSlash(repr);
    if i == |repr| then None else Some(ChainRef(repr[..i], repr[i + 1..]))
  }

  function ToString(c: ChainRef): string {
    c.ns + "/" + c.network
  }

  /** Exactly the texts with a slash are accepted, and printing what was accepted gives the text back. */
  lemma ParseThenPrint(s: string)
    ensures ParseChain(s).Some? <==> '/' in s
    ensures ParseChain(s).Some? ==> ToString(ParseChain(s).value) == s
    ensures ParseChain(s).Some? ==> '/' !in ParseChain(s).value.ns
  {
    var i := FirstSlash(s);
    if i < |s| {
      assert s[i] == '/' && s == s[..i] + [s[i]] + s[i + 1..];
    } else {
      assert s[..i] == s;
    }
  }

  /** In a printed reference the first slash is the separator exactly when the namespace holds none. */
  lemma Separator(c: ChainRef)
    ensures FirstSlash(ToString(c)) == |c.ns| <==> '/' !in c.ns
    ensures FirstSlash(ToString(c)) <= |c.ns|
  {
    var s, i := ToString(c), FirstSlash(ToString(c));
    assert s[|c.ns|] == '/';
    if i < |c.ns| {
      assert c.ns[i] == s[i];
    } else {
      assert forall j :: 0 <= j < |c.ns| ==> c.ns[j] == s[j];
    }
  }

  /** Parsing a printed reference gives it back exactly when its namespace holds no slash. */
  lemma PrintThenParse(c: ChainRef)
    ensures ParseChain(ToString(c)) == Some(c) <==> '/' !in c.ns
  {
    var s, i := ToString(c), FirstSlash(ToString(c));
    Separator(c);
    hide FirstSlash;
    assert s[..|c.ns|] == c.ns && s[|c.ns| + 1..] == c.network;
    assert |s[..i]| == i;
  }
}

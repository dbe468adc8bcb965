/** The split-DNS classifier: a string suffix test that decides a question about labels. */
module DnsSuffix {
  import opened Text

  datatype Path = PathDirect | PathExit

  function TrimDot(s: string): string {
    if HasPrefix(s, ".") then s[1..] else s
  }

  /** One turn of the loop in Classify; n and s are canonical. */
  predicate Matches(n: string, s: string) {
    var dotted := if HasPrefix(s, ".") then s else "." + s;
    n == TrimDot(dotted) || HasSuffix(n, dotted)
  }

  /** Classify: the first matching suffix sends the name direct. The canonical form (lower case, final
      dot) is the DNS library's and is a parameter. */
  function Classify(canonical: string -> string, suffixes: seq<string>, name: string): Path {
    var n := canonical(TrimSpace(name));
    if exists i :: 0 <= i < |suffixes| && Matches(n, canonical(TrimSpace(suffixes[i]))) then PathDirect else PathExit
  }

  // ----- labels

  ghost predicate Qualified(s: string) {
    s == "" || s[|s| - 1] == '.'
  }

  /** The labels of a fully qualified name; the root is the name of no label. */
  ghost function Labels(s: string): seq<string> {
    var parts := Split(s, '.');
    parts[..|parts| - 1]
  }

  ghost predicate EndsWith(a: seq<string>, b: seq<string>) {
    |b| <= |a| && a[|a| - |b|..] == b
  }

  lemma LastPartEmpty(s: string)
    requires Qualified(s)
    ensures Split(s, '.') == Labels(s) + [""]
  {
    if s != "" {
      assert s == s[..|s| - 1] + ['.'] + "";
      SplitConcat(s[..|s| - 1], "", '.');
    }
  }

  /** The string test holds exactly when the name's labels end with the suffix's labels. */
  lemma MatchesIff(n: string, s: string)
    requires Qualified(n) && Qualified(s)
    ensures Matches(n, s) <==> EndsWith(Labels(n), Labels(TrimDot(s)))
  {
    var t := TrimDot(s);
    assert Qualified(t);
    LastPartEmpty(n);
    LastPartEmpty(t);
    assert "." + t == if HasPrefix(s, ".") then s else "." + s;
    if HasSuffix(n, "." + t) {
      SuffixLabels(n, t);
    }
    if EndsWith(Labels(n), Labels(t)) {
      LabelsSuffix(n, t);
    }
  }

  lemma SuffixLabels(n: string, t: string)
    requires Qualified(n) && Qualified(t) && HasSuffix(n, "." + t)
    ensures EndsWith(Labels(n), Labels(t))
  {
    hide Split;
    var x := n[..|n| - |t| - 1];
    assert n == x + ['.'] + t;
    SplitConcat(x, t, '.');
    LastPartEmpty(t);
    assert Labels(n) == Split(x, '.') + Labels(t);
  }

  lemma LabelsSuffix(n: string, t: string)
    requires Qualified(n) && Qualified(t) && EndsWith(Labels(n), Labels(t))
    ensures n == t || HasSuffix(n, "." + t)
  {
    hide Split, Join, Labels;
    LastPartEmpty(n);
    LastPartEmpty(t);
    JoinOfSplit(n, '.');
    JoinOfSplit(t, '.');
    var front := Labels(n)[..|Labels(n)| - |Labels(t)|];
    assert Split(n, '.') == front + Split(t, '.');
    if front != [] {
      JoinConcat(front, Split(t, '.'), '.');
      assert n == Join(front, '.') + "." + t;
    }
  }

  /** Classification is by labels: never by a part of a label, in whatever way the suffix is written. */
  lemma ClassifyByLabels(canonical: string -> string, suffixes: seq<string>, name: string)
    requires forall s :: Qualified(canonical(s))
    ensures Classify(canonical, suffixes, name) == PathDirect
       <==> exists i :: 0 <= i < |suffixes| &&
              EndsWith(Labels(canonical(TrimSpace(name))), Labels(TrimDot(canonical(TrimSpace(suffixes[i])))))
  {
    forall i | 0 <= i < |suffixes|
      ensures Matches(canonical(TrimSpace(name)), canonical(TrimSpace(suffixes[i])))
         <==> EndsWith(Labels(canonical(TrimSpace(name))), Labels(TrimDot(canonical(TrimSpace(suffixes[i])))))
    {
      MatchesIff(canonical(TrimSpace(name)), canonical(TrimSpace(suffixes[i])));
    }
  }
}

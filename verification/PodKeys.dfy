/** The two keys of a pod in the scheduling queue: the heaps use namespace/name, the map of
    unschedulable pods uses name_namespace. */
module PodKeys {

  datatype PodName = PodName(namespace: string, name: string)

  /** podInfoKeyFunc (MetaNamespaceKeyFunc). */
  function HeapKey(p: PodName): string {
    if p.namespace == "" then p.name else p.namespace + "/" + p.name
  }

  /** GetPodFullName. */
  function FullName(p: PodName): string {
    p.name + "_" + p.namespace
  }

  /** Kubernetes allows neither separator in names and namespaces. */
  predicate Plain(s: string) {
    forall i :: 0 <= i < |s| ==> s[i] != '/' && s[i] != '_'
  }

  predicate WellNamed(p: PodName) {
    Plain(p.namespace) && Plain(p.name)
  }

  /** A separator that does not occur in the first parts splits a string in one way. */
  lemma SplitIsUnique(a: string, b: string, x: string, y: string, c: char)
    requires a + [c] + b == x + [c] + y
    requires forall i :: 0 <= i < |a| ==> a[i] != c
    requires forall i :: 0 <= i < |x| ==> x[i] != c
    ensures a == x && b == y
  {
    var s, t := a + [c] + b, x + [c] + y;
    assert s[|a|] == c && t[|x|] == c;
    assert |a| == |x|;
    assert a == s[..|a|] && x == t[..|x|];
    assert b == s[|a| + 1..] && y == t[|x| + 1..];
  }

  /** Both keys tell the same pods apart: those with another name or namespace. */
  lemma KeysAgree(p: PodName, q: PodName)
    requires WellNamed(p) && WellNamed(q)
    ensures HeapKey(p) == HeapKey(q) <==> p == q
    ensures FullName(p) == FullName(q) <==> p == q
  {
    if FullName(p) == FullName(q) { SplitIsUnique(p.name, p.namespace, q.name, q.namespace, '_'); }
    if HeapKey(p) == HeapKey(q) {
      if p.namespace != "" && q.namespace != "" {
        SplitIsUnique(p.namespace, p.name, q.namespace, q.name, '/');
      } else {
        SlashOrNot(p);
        SlashOrNot(q);
      }
    }
  }

  lemma SlashOrNot(p: PodName)
    requires WellNamed(p)
    ensures (exists i :: 0 <= i < |HeapKey(p)| && HeapKey(p)[i] == '/') <==> p.namespace != ""
  {
    if p.namespace != "" { assert HeapKey(p)[|p.namespace|] == '/'; }
  }
}

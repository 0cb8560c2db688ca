/** Labels written as text: "key=value" in status and external references, "key|value" in the href cache. */
module LabelText {
  import opened Wrappers
  import opened Pce

  /** A key, a separator and a value. */
  function Joined(l: Label, separator: char): string {
    l.key + [separator] + l.value
  }

  /** The reported text of a label, which is also its external_data_reference. */
  function KeyValue(l: Label): string {
    Joined(l, '=')
  }

  function CacheKey(l: Label): string {
    Joined(l, '|')
  }

  lemma TextOfLabel(key: string, value: string)
    ensures KeyValue(Label(key, value)) == key + "=" + value && CacheKey(Label(key, value)) == key + "|" + value
  {
  }

  /** Labels whose keys do not contain the separator are told apart by their text. */
  lemma JoinedInjective(l: Label, m: Label, separator: char)
    requires separator !in l.key && separator !in m.key
    requires Joined(l, separator) == Joined(m, separator)
    ensures l == m
  {
    var t := Joined(l, separator);
    assert t[|l.key|] == separator && t[|m.key|] == separator;
    assert forall i :: 0 <= i < |l.key| ==> t[i] == l.key[i] && l.key[i] in l.key;
    assert forall i :: 0 <= i < |m.key| ==> t[i] == m.key[i] && m.key[i] in m.key;
    assert l.key == t[..|l.key|] == m.key;
    assert l.value == t[|l.key| + 1..] == m.value;
  }

  /** A separator inside a key makes two labels share one text. */
  lemma JoinedCollides(separator: char, a: string, b: string, c: string)
    ensures Label(a + [separator] + b, c) != Label(a, b + [separator] + c)
    ensures Joined(Label(a + [separator] + b, c), separator) == Joined(Label(a, b + [separator] + c), separator)
  {
    assert |a + [separator] + b| > |a|;
    assert (a + [separator] + b) + [separator] + c == a + [separator] + (b + [separator] + c);
  }
}

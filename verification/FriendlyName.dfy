/** OpenAPI definition names. Models friendlyName in cmd/modelschema/main.go. */
module FriendlyName {
  import opened Text
  import opened Sequences

  method ReverseInPlace(parts: array<string>)
    modifies parts
    ensures parts[..] == Reversed(old(parts[..]))
  {
    var i, j := 0, parts.Length - 1;
    while i < j
      invariant 0 <= i <= j + 2 && i + j == parts.Length - 1
      invariant forall k | 0 <= k < i :: parts[k] == old(parts[..])[parts.Length - 1 - k]
      invariant forall k | j < k < parts.Length :: parts[k] == old(parts[..])[parts.Length - 1 - k]
      invariant forall k | i <= k <= j :: parts[k] == old(parts[..])[k]
    {
      parts[i], parts[j] := parts[j], parts[i];
      i, j := i + 1, j - 1;
    }
  }

  /** The name computed without a loop. */
  function Friendly(name: string): string
  {
    var nameParts := Split(name, '/');
    Join([Join(Reversed(Split(nameParts[0], '.')), '.')] + nameParts[1..], '.')
  }

  method ArrayOf(labels: seq<string>) returns (parts: array<string>)
    ensures fresh(parts) && parts[..] == labels
  {
    parts := new string[|labels|](i requires 0 <= i < |labels| => labels[i]);
  }

  method ComputeFriendlyName(name: string) returns (r: string)
    ensures r == Friendly(name)
  {
    var nameParts := Split(name, '/');
    FriendlyByUpdate(name, nameParts);
    if '.' in nameParts[0] {
      var parts := ArrayOf(Split(nameParts[0], '.'));
      ReverseInPlace(parts);
      nameParts := nameParts[0 := Join(parts[..], '.')];
    } else {
      OneLabel(nameParts[0]);
    }
    r := Join(nameParts, '.');
  }

  lemma FriendlyByUpdate(name: string, nameParts: seq<string>)
    requires nameParts == Split(name, '/')
    ensures Friendly(name) == Join(nameParts[0 := Join(Reversed(Split(nameParts[0], '.')), '.')], '.')
  {
    var first := Join(Reversed(Split(nameParts[0], '.')), '.');
    assert nameParts[0 := first] == [first] + nameParts[1..];
  }

  lemma OneLabel(s: string)
    requires '.' !in s
    ensures Join(Reversed(Split(s, '.')), '.') == s
  {
    SplitWithoutSeparator(s, '.');
    assert Reversed([s]) == [s];
  }

  /** The labels of a friendly name: those of the first slash-separated part reversed, then all the others in order. */
  lemma {:induction false} FriendlyLabels(name: string)
    ensures var parts := Split(name, '/');
            Split(Friendly(name), '.') == Reversed(Split(parts[0], '.')) + SplitAll(parts[1..], '.')
  {
    var parts := Split(name, '/');
    var first := Join(Reversed(Split(parts[0], '.')), '.');
    ReversedLabels(parts[0]);
    SplitOfAnyJoin([first] + parts[1..], '.');
    assert ([first] + parts[1..])[1..] == parts[1..];
  }

  lemma {:induction false} ReversedLabels(s: string)
    ensures Split(Join(Reversed(Split(s, '.')), '.'), '.') == Reversed(Split(s, '.'))
  {
    JoinOfSplit(s, '.');
    SplitOfJoin(Reversed(Split(s, '.')), '.');
  }

  lemma {:induction false} FriendlyWithoutSlash(name: string)
    requires '/' !in name
    ensures Friendly(name) == Join(Reversed(Split(name, '.')), '.')
  {
    SplitWithoutSeparator(name, '/');
  }

  lemma {:induction false} NoSlashComes(name: string, labels: seq<string>)
    requires '/' !in name && labels == Split(name, '.')
    ensures '/' !in Join(Reversed(labels), '.')
  {
    forall i | 0 <= i < |labels| ensures '/' !in labels[i] {
      LabelsWithin(name, '.', '/', i);
    }
    JoinWithout(Reversed(labels), '.', '/');
  }

  /** Without a slash, applying it twice gives the name back. */
  lemma {:induction false} FriendlyTwice(name: string)
    requires '/' !in name
    ensures Friendly(Friendly(name)) == name
  {
    var labels := Split(name, '.');
    FriendlyWithoutSlash(name);
    NoSlashComes(name, labels);
    FriendlyWithoutSlash(Friendly(name));
    ReversedLabels(name);
    assert Reversed(Reversed(labels)) == labels;
    JoinOfSplit(name, '.');
  }

  lemma {:induction false} LabelsWithin(s: string, sep: char, c: char, i: nat)
    requires c !in s && i < |Split(s, sep)|
    ensures c !in Split(s, sep)[i]
  {
    if s != "" {
      if s[0] == sep {
        if i > 0 {
          LabelsWithin(s[1..], sep, c, i - 1);
        }
      } else {
        LabelsWithin(s[1..], sep, c, i);
      }
    }
  }

  lemma {:induction false} JoinWithout(parts: seq<string>, sep: char, c: char)
    requires c != sep && forall i | 0 <= i < |parts| :: c !in parts[i]
    ensures c !in Join(parts, sep)
  {
    if |parts| > 1 {
      JoinWithout(parts[1..], sep, c);
    }
  }
}

/**
 * The ordered property-source chain of a Spring environment: named key/value
 * layers searched front to back, first match wins.  The mutable environment is
 * the class Environment; the contents of its chain are specified by the
 * functions on sequences below.
 */
module PropertySources {
  import opened Wrappers

  /** A named layer of configuration (a MapPropertySource with string values). */
  datatype PropertySource = PropertySource(name: string, properties: map<string, string>)

  /** First-match lookup along the chain, as the environment's getProperty does:
      it finds nothing exactly when no source defines the key, and whatever it
      finds is a value some source holds for the key. */
  function Lookup(chain: seq<PropertySource>, key: string): (r: Option<string>)
    ensures r == None <==> forall j :: 0 <= j < |chain| ==> key !in chain[j].properties
    ensures r.Some? ==> exists i :: 0 <= i < |chain| && key in chain[i].properties && r.value == chain[i].properties[key]
  {
    if chain == [] then None
    else if key in chain[0].properties then Some(chain[0].properties[key])
    else
      assert forall j :: 1 <= j < |chain| ==> chain[j] == chain[1..][j - 1];
      Lookup(chain[1..], key)
  }

  /** The value a lookup finds is that of the first source defining the key. */
  lemma {:induction false} LookupFirstMatch(chain: seq<PropertySource>, key: string, i: nat)
    requires i < |chain| && key in chain[i].properties
    requires forall j :: 0 <= j < i ==> key !in chain[j].properties
    ensures Lookup(chain, key) == Some(chain[i].properties[key])
  {
    if i > 0 {
      LookupFirstMatch(chain[1..], key, i - 1);
    }
  }

  /** No two sources of the chain share a name. */
  ghost predicate DistinctNames(chain: seq<PropertySource>)
  {
    forall i, j :: 0 <= i < j < |chain| ==> chain[i].name != chain[j].name
  }

  /** The chain without the sources called `name` (removeIfPresent): none of
      that name is left, every other source stays, and nothing new appears. */
  function RemoveNamed(chain: seq<PropertySource>, name: string): (r: seq<PropertySource>)
    ensures |r| <= |chain|
    ensures forall s :: s in r ==> s in chain && s.name != name
    ensures forall s :: s in chain && s.name != name ==> s in r
    ensures (forall s :: s in chain ==> s.name != name) ==> r == chain
  {
    if chain == [] then []
    else if chain[0].name == name then RemoveNamed(chain[1..], name)
    else [chain[0]] + RemoveNamed(chain[1..], name)
  }

  /** The chain after addFirst(source): the new source in front, followed by
      exactly the old sources of other names. */
  function Prepended(chain: seq<PropertySource>, source: PropertySource): (r: seq<PropertySource>)
    ensures |r| >= 1 && r[0] == source
    ensures forall s :: s in r[1..] ==> s in chain && s.name != source.name
    ensures forall s :: s in chain && s.name != source.name ==> s in r[1..]
  {
    [source] + RemoveNamed(chain, source.name)
  }

  /** A source whose name no source of a distinct-named chain bears can be put in front. */
  lemma ConsKeepsNamesDistinct(source: PropertySource, rest: seq<PropertySource>)
    requires DistinctNames(rest)
    requires forall s :: s in rest ==> s.name != source.name
    ensures DistinctNames([source] + rest)
  {
  }

  /** In a distinct-named chain, the head's name is borne by no later source,
      and the tail's names are distinct too. */
  lemma HeadNameIsUnique(chain: seq<PropertySource>)
    requires chain != [] && DistinctNames(chain)
    ensures forall s :: s in chain[1..] ==> s.name != chain[0].name
    ensures DistinctNames(chain[1..])
  {
    forall i, j | 0 <= i < j < |chain[1..]|
      ensures chain[1..][i].name != chain[1..][j].name
    {
      assert chain[1..][i] == chain[i + 1] && chain[1..][j] == chain[j + 1];
    }
  }

  /** Removing sources keeps the remaining names distinct. */
  lemma {:induction false} RemoveNamedKeepsNamesDistinct(chain: seq<PropertySource>, name: string)
    requires DistinctNames(chain)
    ensures DistinctNames(RemoveNamed(chain, name))
  {
    if chain != [] {
      HeadNameIsUnique(chain);
      RemoveNamedKeepsNamesDistinct(chain[1..], name);
      if chain[0].name != name {
        ConsKeepsNamesDistinct(chain[0], RemoveNamed(chain[1..], name));
      }
    }
  }

  /** When only the source at position p bears `name`, removing that name
      takes out that source alone and keeps the order of the others. */
  lemma {:induction false} RemoveNamedDropsOnlyThatSource(chain: seq<PropertySource>, name: string, p: nat)
    requires p < |chain| && chain[p].name == name
    requires forall j :: 0 <= j < |chain| && j != p ==> chain[j].name != name
    ensures RemoveNamed(chain, name) == chain[..p] + chain[p + 1..]
  {
    var tail := chain[1..];
    if p == 0 {
      assert forall s :: s in tail ==> s.name != name;
      assert RemoveNamed(chain, name) == RemoveNamed(tail, name) == tail;
    } else {
      RemoveNamedDropsOnlyThatSource(tail, name, p - 1);
      assert RemoveNamed(chain, name) == [chain[0]] + (tail[..p - 1] + tail[p..]);
      assert tail[..p - 1] == chain[1..p] && tail[p..] == chain[p + 1..];
      assert [chain[0]] + chain[1..p] == chain[..p];
    }
  }

  /** addFirst preserves the chain's invariant that names are unique, and the
      new source is the only one bearing its name. */
  lemma PrependedKeepsNamesDistinct(chain: seq<PropertySource>, source: PropertySource)
    requires DistinctNames(chain)
    ensures DistinctNames(Prepended(chain, source))
    ensures Prepended(chain, source)[0] == source
  {
    RemoveNamedKeepsNamesDistinct(chain, source.name);
    ConsKeepsNamesDistinct(source, RemoveNamed(chain, source.name));
  }

  /** Precedence: after addFirst, a key the new source defines resolves to the
      new source's value; any other key resolves as it did before, provided no
      source of that name was already in the chain. */
  lemma {:induction false} PrependedTakesPrecedence(chain: seq<PropertySource>, source: PropertySource, key: string)
    requires forall s :: s in chain ==> s.name != source.name
    ensures Prepended(chain, source)[1..] == chain
    ensures Lookup(Prepended(chain, source), key)
            == if key in source.properties then Some(source.properties[key]) else Lookup(chain, key)
  {
  }

  /** Whatever the chain held, a key the new source defines resolves to it. */
  lemma PrependedSourceResolves(chain: seq<PropertySource>, source: PropertySource, key: string)
    requires key in source.properties
    ensures Lookup(Prepended(chain, source), key) == Some(source.properties[key])
  {
    assert Prepended(chain, source)[0] == source;
  }

  /** Re-adding a name: when the chain already holds a source of that name at
      position p, addFirst replaces it by the new source at the front; keys the
      new source defines resolve to it, other keys resolve along the old chain
      with the replaced source taken out. */
  lemma PrependedReplacesSameName(chain: seq<PropertySource>, source: PropertySource, p: nat, key: string)
    requires DistinctNames(chain)
    requires p < |chain| && chain[p].name == source.name
    ensures Prepended(chain, source) == [source] + (chain[..p] + chain[p + 1..])
    ensures Lookup(Prepended(chain, source), key)
            == if key in source.properties then Some(source.properties[key]) else Lookup(chain[..p] + chain[p + 1..], key)
  {
    RemoveNamedDropsOnlyThatSource(chain, source.name, p);
    assert Prepended(chain, source)[1..] == chain[..p] + chain[p + 1..];
  }

  /** The environment whose property-source chain the loader changes in place. */
  class Environment {
    var propertySources: seq<PropertySource>

    ghost predicate Valid()
      reads this
    {
      DistinctNames(propertySources)
    }

    constructor (initial: seq<PropertySource>)
      requires DistinctNames(initial)
      ensures Valid() && propertySources == initial
    {
      propertySources := initial;
    }

    /** getProperty: absent exactly when no source defines the key, otherwise
        the value of the first source that does. */
    function GetProperty(key: string): (v: Option<string>)
      reads this
      ensures v == None <==> forall j :: 0 <= j < |propertySources| ==> key !in propertySources[j].properties
      ensures forall i :: 0 <= i < |propertySources| && key in propertySources[i].properties
                          && (forall j :: 0 <= j < i ==> key !in propertySources[j].properties)
                          ==> v == Some(propertySources[i].properties[key])
    {
      var r := Lookup(propertySources, key);
      assert forall i :: 0 <= i < |propertySources| && key in propertySources[i].properties
                         && (forall j :: 0 <= j < i ==> key !in propertySources[j].properties)
                         ==> r == Some(propertySources[i].properties[key]) by {
        forall i | 0 <= i < |propertySources| && key in propertySources[i].properties
                   && (forall j :: 0 <= j < i ==> key !in propertySources[j].properties)
          ensures r == Some(propertySources[i].properties[key])
        {
          LookupFirstMatch(propertySources, key, i);
        }
      }
      r
    }

    /** getPropertySources().addFirst(source): give `source` the highest precedence. */
    method AddFirst(source: PropertySource)
      requires Valid()
      modifies this
      ensures Valid()
      ensures propertySources == Prepended(old(propertySources), source)
    {
      PrependedKeepsNamesDistinct(propertySources, source);
      propertySources := [source] + RemoveNamed(propertySources, source.name);
    }
  }
}

/** TemplatesManager (templates_manager.py): announcement templates in a
    dictionary keyed by lower-cased name, with a protected "default" entry.
    Loading and saving go to the configuration module and are not part of
    this model: the loaded dictionary is a constructor parameter, and every
    save is left out. */
module Templates {
  import opened Text

  const DefaultName: string := "default"

  /** The names in order, without key. */
  function Drop(names: seq<string>, key: string): (r: seq<string>)
    ensures forall k :: k in r <==> k in names && k != key
  {
    if names == [] then []
    else if names[0] == key then Drop(names[1..], key)
    else [names[0]] + Drop(names[1..], key)
  }

  predicate Distinct(names: seq<string>)
  {
    forall i, j :: 0 <= i < j < |names| ==> names[i] != names[j]
  }

  lemma {:induction false} DropDistinct(names: seq<string>, key: string)
    requires Distinct(names)
    ensures Distinct(Drop(names, key))
  {
    if names != [] {
      DropDistinct(names[1..], key);
      if names[0] != key {
        var r := [names[0]] + Drop(names[1..], key);
        forall i, j | 0 <= i < j < |r|
          ensures r[i] != r[j]
        {
          if i == 0 {
            assert r[j] in Drop(names[1..], key);
            assert names[0] !in names[1..];
          }
        }
      }
    }
  }

  lemma AppendDistinct(names: seq<string>, key: string)
    requires Distinct(names) && key !in names
    ensures Distinct(names + [key])
  {
    var r := names + [key];
    forall i, j | 0 <= i < j < |r|
      ensures r[i] != r[j]
    {
      if j == |names| {
        assert r[i] in names;
      }
    }
  }

  /** templates.get(name.lower(), templates['default']) as written: the
      fallback is evaluated first, so a missing "default" raises KeyError
      (None here) whatever the name. */
  function GetAsWritten(templates: map<string, string>, name: string): (r: Option<string>)
    ensures r.Some? <==> DefaultName in templates
  {
    if DefaultName !in templates then None
    else if Lower(name) in templates then Some(templates[Lower(name)])
    else Some(templates[DefaultName])
  }

  /** The lookup as intended: the named template, else the default one, and
      None only when neither exists. */
  function Get(templates: map<string, string>, name: string): (r: Option<string>)
    ensures Lower(name) in templates ==> r == Some(templates[Lower(name)])
    ensures Lower(name) !in templates ==> r == if DefaultName in templates then Some(templates[DefaultName]) else None
  {
    if Lower(name) in templates then Some(templates[Lower(name)])
    else if DefaultName in templates then Some(templates[DefaultName])
    else None
  }

  /** Without a "default" entry, the lookup as written fails even for a
      template that exists. */
  lemma GetMissesAsWritten()
    ensures GetAsWritten(map["match" := "Матч {date}"], "match") == None
    ensures Get(map["match" := "Матч {date}"], "match") == Some("Матч {date}")
  {
    assert Lower("match") == "match";
  }

  /** A name in any letter case reaches the template added under it. */
  lemma GetAnyCase(templates: map<string, string>, name: string, other: string)
    requires Lower(name) in templates && Lower(other) == Lower(name)
    ensures Get(templates, other) == Some(templates[Lower(name)])
  {
  }

  /** "DEFAULT" is the protected name too. */
  lemma DefaultAnyCase()
    ensures Lower("DEFAULT") == DefaultName && Lower("Default") == DefaultName
  {
  }

  class TemplatesManager {
    var templates: map<string, string>
    /** The dictionary's keys in insertion order. */
    var names: seq<string>

    ghost predicate Valid()
      reads this
    {
      (forall k :: k in names <==> k in templates) && Distinct(names)
    }

    /** self.templates = load_templates() */
    constructor(loaded: map<string, string>, loadedNames: seq<string>)
      requires (forall k :: k in loadedNames <==> k in loaded) && Distinct(loadedNames)
      ensures Valid() && templates == loaded && names == loadedNames
    {
      templates := loaded;
      names := loadedNames;
    }

    /** add_template: refused when the lower-cased name exists; otherwise
        the template is stored under the lower-cased name. */
    method AddTemplate(name: string, text: string) returns (ok: bool)
      requires Valid()
      modifies this
      ensures Valid()
      ensures ok <==> Lower(name) !in old(templates)
      ensures ok ==> templates == old(templates)[Lower(name) := text] && names == old(names) + [Lower(name)]
      ensures !ok ==> templates == old(templates) && names == old(names)
    {
      var key := Lower(name);
      if key in templates {
        return false;
      }
      AppendDistinct(names, key);
      templates := templates[key := text];
      names := names + [key];
      return true;
    }

    /** edit_template: refused when the lower-cased name is missing;
        otherwise only that template's text changes. */
    method EditTemplate(name: string, newText: string) returns (ok: bool)
      requires Valid()
      modifies this
      ensures Valid()
      ensures ok <==> Lower(name) in old(templates)
      ensures ok ==> templates == old(templates)[Lower(name) := newText]
      ensures !ok ==> templates == old(templates)
      ensures names == old(names)
    {
      var key := Lower(name);
      if key !in templates {
        return false;
      }
      templates := templates[key := newText];
      return true;
    }

    /** get_template, as written. */
    function GetTemplate(name: string): (r: Option<string>)
      reads this
      ensures r == GetAsWritten(templates, name)
      ensures DefaultName in templates ==> r == Get(templates, name)
    {
      GetAgreesIfDefault(templates, name);
      GetAsWritten(templates, name)
    }

    /** list_templates: the keys, in insertion order. */
    function ListTemplates(): (r: seq<string>)
      reads this
      requires Valid()
      ensures forall k :: k in r <==> k in templates
      ensures Distinct(r)
    {
      names
    }

    /** delete_template: "default" in any letter case and unknown names are
        refused; otherwise exactly that template is removed. */
    method DeleteTemplate(name: string) returns (ok: bool)
      requires Valid()
      modifies this
      ensures Valid()
      ensures ok <==> Lower(name) != DefaultName && Lower(name) in old(templates)
      ensures ok ==> templates == old(templates) - {Lower(name)} && names == Drop(old(names), Lower(name))
      ensures !ok ==> templates == old(templates) && names == old(names)
    {
      var key := Lower(name);
      if key == DefaultName || key !in templates {
        return false;
      }
      DropDistinct(names, key);
      templates := templates - {key};
      names := Drop(names, key);
      return true;
    }
  }

  /** Where "default" exists, the two lookups agree. */
  lemma GetAgreesIfDefault(templates: map<string, string>, name: string)
    ensures DefaultName in templates ==> GetAsWritten(templates, name) == Get(templates, name)
  {
  }

  // ---------------------------------------------------------------------------
  // What the edits mean for lookups

  /** After adding, the template is found under its name in any case. */
  lemma AddThenGet(templates: map<string, string>, name: string, other: string, text: string)
    requires Lower(name) !in templates && Lower(other) == Lower(name)
    ensures Get(templates[Lower(name) := text], other) == Some(text)
  {
  }

  /** After deleting, the name falls back to the default template, which
      deleting never removes. */
  lemma DeleteThenGet(templates: map<string, string>, name: string)
    requires Lower(name) != DefaultName && Lower(name) in templates && DefaultName in templates
    ensures DefaultName in templates - {Lower(name)}
    ensures Get(templates - {Lower(name)}, name) == Some(templates[DefaultName])
  {
  }

  /** A stored key is its own lower-casing, so it finds itself. */
  lemma StoredKeyFindsItself(templates: map<string, string>, name: string, text: string)
    ensures Get(templates[Lower(name) := text], Lower(name)) == Some(text)
  {
    LowerIdempotent(name);
  }

  /** Editing a template other than the default one changes what its name
      reads and nothing else. */
  lemma EditThenGet(templates: map<string, string>, name: string, other: string, text: string)
    requires Lower(name) in templates && Lower(name) != DefaultName
    ensures Get(templates[Lower(name) := text], other) ==
      if Lower(other) == Lower(name) then Some(text) else Get(templates, other)
  {
  }
}

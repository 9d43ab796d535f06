/**
 * The plugin object of `main.ts`: its settings, its view, the cache of
 * grouped unresolved links, and the edits the settings tab makes to the
 * template list; and the save check of the template editor.
 */
module Plugin {
  import opened Wrappers
  import opened OrderedMaps
  import opened Settings
  import opened VaultScanner
  import opened GeneratorService

  /** What the cache holds: link groups keyed by folder, as `groupLinksByFolder` builds them. */
  type LinkGroups = OrderedMap<string, seq<UnresolvedLinkInfo>>

  /** A handle for the sidebar view; the view itself is not part of this model. */
  type ViewHandle = nat

  /**
   * `s.splice(start, 1)` as ECMA-262 defines it: a negative start counts
   * from the end, the start is clamped to the list, and at most one element
   * is removed.
   */
  function SpliceOne<T>(s: seq<T>, start: int): (r: seq<T>)
    ensures 0 <= start < |s| ==> r == s[..start] + s[start + 1..]
    ensures -|s| <= start < 0 ==> r == s[..|s| + start] + s[|s| + start + 1..]
    ensures start < -|s| && s != [] ==> r == s[1..]
    ensures start >= |s| ==> r == s
  {
    var actualStart := if start < 0 then (if |s| + start < 0 then 0 else |s| + start)
                       else if start > |s| then |s| else start;
    var deleteCount := if actualStart == |s| then 0 else 1;
    s[..actualStart] + s[actualStart + deleteCount..]
  }

  /**
   * Deleting at an index of the list removes exactly that element: the
   * others keep their relative order, and nothing else is lost.
   */
  lemma SpliceOneRemovesIndex<T>(s: seq<T>, index: int)
    requires 0 <= index < |s|
    ensures |SpliceOne(s, index)| == |s| - 1
    ensures forall k :: 0 <= k < index ==> SpliceOne(s, index)[k] == s[k]
    ensures forall k :: index <= k < |s| - 1 ==> SpliceOne(s, index)[k] == s[k + 1]
    ensures multiset(SpliceOne(s, index)) + multiset{s[index]} == multiset(s)
  {
    assert s == s[..index] + [s[index]] + s[index + 1..];
  }

  class KnowledgeCurator {
    var settings: KnowledgeCuratorSettings
    var view: Option<ViewHandle>
    var cachedUnresolvedLinks: Option<LinkGroups>

    /** The plugin with its loaded settings: no view is open and the cache is empty. */
    constructor(settings: KnowledgeCuratorSettings)
      ensures this.settings == settings
      ensures view == None && cachedUnresolvedLinks == None
    {
      this.settings := settings;
      view := None;
      cachedUnresolvedLinks := None;
    }

    /** `getCachedLinks`: the cache as it stands, `None` when empty. */
    function GetCachedLinks(): (links: Option<LinkGroups>)
      reads this
      ensures links == cachedUnresolvedLinks
    {
      cachedUnresolvedLinks
    }

    /** `setCachedLinks`: the next read returns `links`, whatever was cached before. */
    method SetCachedLinks(links: LinkGroups)
      modifies this
      ensures GetCachedLinks() == Some(links)
      ensures settings == old(settings) && view == old(view)
    {
      cachedUnresolvedLinks := Some(links);
    }

    /** `clearCachedLinks`: the next read finds the cache empty. */
    method ClearCachedLinks()
      modifies this
      ensures GetCachedLinks() == None
      ensures settings == old(settings) && view == old(view)
    {
      cachedUnresolvedLinks := None;
    }

    /**
     * The "Add" callback: the new template goes to the end of the list, and
     * its option to the end of the template drop-down.
     */
    method AddTemplate(newTemplate: PromptTemplate)
      modifies this
      ensures settings == old(settings).(promptTemplates := old(settings.promptTemplates) + [newTemplate])
      ensures GetAvailableTemplates(settings.promptTemplates)
           == GetAvailableTemplates(old(settings.promptTemplates)) + [OptionOf(newTemplate)]
      ensures view == old(view) && cachedUnresolvedLinks == old(cachedUnresolvedLinks)
    {
      AvailableTemplatesAppend(settings.promptTemplates, [newTemplate]);
      assert GetAvailableTemplates([newTemplate]) == [OptionOf(newTemplate)] by {
        assert [newTemplate][..0] == [];
      }
      settings := settings.(promptTemplates := settings.promptTemplates + [newTemplate]);
    }

    /** The "Delete" callback, once confirmed: `splice(index, 1)` on the list. */
    method DeleteTemplateAt(index: int)
      modifies this
      ensures settings == old(settings).(promptTemplates := SpliceOne(old(settings.promptTemplates), index))
      ensures view == old(view) && cachedUnresolvedLinks == old(cachedUnresolvedLinks)
    {
      settings := settings.(promptTemplates := SpliceOne(settings.promptTemplates, index));
    }

    /** The "Edit" callback: the edited template takes the place of the one at `index`. */
    method ReplaceTemplateAt(index: nat, updatedTemplate: PromptTemplate)
      requires index < |settings.promptTemplates|
      modifies this
      ensures settings == old(settings).(promptTemplates := old(settings.promptTemplates)[index := updatedTemplate])
      ensures |settings.promptTemplates| == |old(settings.promptTemplates)|
      ensures view == old(view) && cachedUnresolvedLinks == old(cachedUnresolvedLinks)
    {
      settings := settings.(promptTemplates := settings.promptTemplates[index := updatedTemplate]);
    }
  }

  /** The editor of one template, for a new template or a copy of an existing one. */
  class TemplateModal {
    var template: PromptTemplate

    /** Opens on the given template, or on an empty one when there is none. */
    constructor(template: Option<PromptTemplate>)
      ensures this.template == if template.Some? then template.value else PromptTemplate("", "")
    {
      this.template := if template.Some? then template.value else PromptTemplate("", "");
    }

    /** The name field's change handler. */
    method SetName(value: string)
      modifies this
      ensures template == old(template).(name := value)
    {
      template := template.(name := value);
    }

    /** The prompt field's change handler. */
    method SetPrompt(value: string)
      modifies this
      ensures template == old(template).(prompt := value)
    {
      template := template.(prompt := value);
    }

    /**
     * The "Save" button: the template is handed to the save callback only
     * when both its name and its prompt are non-empty.
     */
    method Save() returns (saved: Option<PromptTemplate>)
      ensures saved.Some? <==> template.name != "" && template.prompt != ""
      ensures saved.Some? ==> saved.value == template
    {
      if template.name == "" || template.prompt == "" {
        return None;
      }
      return Some(template);
    }
  }
}

/**
 * The `Backend` of src/main.rs: two maps keyed by document URI, one holding each
 * document's text and one its parsed module, updated by the document-sync
 * notifications and read by the inlay-hint request.
 */
module Server {
  import opened Wrappers
  import opened Syntax
  import opened Positions
  import opened Hints

  /** The contents of the two maps: `document_map` and `ast_map`. */
  datatype Stores = Stores(documents: map<string, string>, trees: map<string, Module>)

  /**
   * The two maps agree: they hold the same URIs, and each tree is the parse of
   * that document's current text.
   */
  ghost predicate Synced(s: Stores, parse: string -> Module)
  {
    s.documents.Keys == s.trees.Keys &&
    forall u :: u in s.documents ==> s.trees[u] == parse(s.documents[u])
  }

  /**
   * `on_change`: the document's text becomes `text` and its tree the parse of
   * `text`; every other URI keeps what it had.
   */
  function Change(s: Stores, parse: string -> Module, uri: string, text: string): (r: Stores)
    ensures uri in r.documents && r.documents[uri] == text
    ensures uri in r.trees && r.trees[uri] == parse(text)
    ensures forall u :: u != uri ==> (u in r.documents <==> u in s.documents)
    ensures forall u :: u != uri ==> (u in r.trees <==> u in s.trees)
    ensures forall u :: u != uri && u in s.documents ==> r.documents[u] == s.documents[u]
    ensures forall u :: u != uri && u in s.trees ==> r.trees[u] == s.trees[u]
  {
    Stores(s.documents[uri := text], s.trees[uri := parse(text)])
  }

  /** A change keeps the two maps in agreement. */
  lemma ChangeKeepsSynced(s: Stores, parse: string -> Module, uri: string, text: string)
    requires Synced(s, parse)
    ensures Synced(Change(s, parse, uri, text), parse)
  {
  }

  /** Delivering the same full text twice leaves the same state as delivering it once. */
  lemma ChangeIdempotent(s: Stores, parse: string -> Module, uri: string, text: string)
    ensures Change(Change(s, parse, uri, text), parse, uri, text) == Change(s, parse, uri, text)
  {
    ChangeOverwrites(s, parse, uri, text, text);
  }

  /** Only the last full text delivered for a document matters. */
  lemma ChangeOverwrites(s: Stores, parse: string -> Module, uri: string, text: string, text': string)
    ensures Change(Change(s, parse, uri, text), parse, uri, text') == Change(s, parse, uri, text')
  {
    UpdateTwice(s.documents, uri, text, text');
    UpdateTwice(s.trees, uri, parse(text), parse(text'));
  }

  /** A second update of a map at the same key replaces the first. */
  lemma UpdateTwice<V>(m: map<string, V>, u: string, x: V, y: V)
    ensures m[u := x][u := y] == m[u := y]
  {
  }

  /** Updates of a map at two different keys can be made in either order. */
  lemma UpdatesCommute<V>(m: map<string, V>, u: string, x: V, v: string, y: V)
    requires u != v
    ensures m[u := x][v := y] == m[v := y][u := x]
  {
  }

  /** Changes to two different documents do not interfere, in either order. */
  lemma ChangesCommute(s: Stores, parse: string -> Module, u: string, t: string, v: string, w: string)
    requires u != v
    ensures Change(Change(s, parse, u, t), parse, v, w) == Change(Change(s, parse, v, w), parse, u, t)
  {
    UpdatesCommute(s.documents, u, t, v, w);
    UpdatesCommute(s.trees, u, parse(t), v, parse(w));
  }

  /** `content_changes[i]` of a `didChange` notification; only its text is read. */
  datatype ContentChange = ContentChange(text: string)

  class Backend {
    /** `parse_program(text).0`, a foreign function the server is given. */
    const parse: string -> Module
    var documentMap: map<string, string>
    var astMap: map<string, Module>

    function State(): Stores
      reads this
    {
      Stores(documentMap, astMap)
    }

    ghost predicate Valid()
      reads this
    {
      Synced(State(), parse)
    }

    constructor(parse: string -> Module)
      ensures this.parse == parse
      ensures documentMap == map[] && astMap == map[]
      ensures Valid()
    {
      this.parse := parse;
      documentMap := map[];
      astMap := map[];
    }

    /** `on_change`: store the text first, then the parsed module. */
    method OnChange(uri: string, text: string)
      modifies this
      ensures State() == Change(old(State()), parse, uri, text)
      ensures old(Valid()) ==> Valid()
    {
      if Valid() {
        ChangeKeepsSynced(State(), parse, uri, text);
      }
      documentMap := documentMap[uri := text];
      astMap := astMap[uri := parse(text)];
    }

    /** `did_open`: the opened document's text is stored and parsed. */
    method DidOpen(uri: string, text: string)
      modifies this
      ensures State() == Change(old(State()), parse, uri, text)
      ensures old(Valid()) ==> Valid()
    {
      OnChange(uri, text);
    }

    /**
     * `did_change`: under full synchronisation the first content change holds
     * the whole new text. Indexing it panics on an empty list of changes.
     */
    method DidChange(uri: string, changes: seq<ContentChange>)
      requires |changes| > 0
      modifies this
      ensures State() == Change(old(State()), parse, uri, changes[0].text)
      ensures old(Valid()) ==> Valid()
    {
      OnChange(uri, changes[0].text);
    }

    /** `did_save` only logs: neither map changes. */
    method DidSave(uri: string)
      ensures State() == old(State())
    {
    }

    /** `did_close` only logs: neither map changes, the document stays stored. */
    method DidClose(uri: string)
      ensures State() == old(State())
    {
    }

    /**
     * `inlay_hint`: collect the entries of the stored module, then, if the
     * document's text is stored, project them onto it. Looking up the module
     * panics when it is missing, as does projecting an entry that is not
     * `Projectable`; so in a synced backend the `None` answer never occurs.
     */
    method InlayHint(uri: string) returns (r: Option<seq<Hint>>)
      requires uri in astMap
      requires uri in documentMap ==>
                 forall k :: 0 <= k < |Sites(astMap[uri])| ==> Projectable(documentMap[uri], Sites(astMap[uri])[k])
      ensures r.None? <==> uri !in documentMap
      ensures Valid() ==> r.Some?
      ensures r.Some? ==> r.value == Project(documentMap[uri], Sites(astMap[uri]))
    {
      var inlays := ExtractInlays(astMap[uri]);
      if uri !in documentMap {
        return None;
      }
      var document := documentMap[uri];
      r := Some(Project(document, inlays));
    }
  }

  /**
   * Once a document has been opened or changed, a hint request answers from the
   * tree of exactly that text: one hint per entry of `parse(text)`, in order,
   * each at the position of its entry's start minus 2.
   */
  lemma HintsFollowLatestText(s: Stores, parse: string -> Module, uri: string, text: string)
    requires forall k :: 0 <= k < |Sites(parse(text))| ==> Projectable(text, Sites(parse(text))[k])
    ensures var r := Change(s, parse, uri, text);
            var hints := Project(r.documents[uri], Sites(r.trees[uri]));
            |hints| == |Sites(parse(text))| &&
            forall k :: 0 <= k < |hints| ==>
              PositionToOffset(text, hints[k].position) == Some(Sites(parse(text))[k].start as int - 2)
  {
  }
}

/** Values of the knowledge store. */
module RagModel {
  import opened Prelude

  type Rune = int

  datatype Scope = Scope(tenant: string, project: string)

  datatype Document = Document(id: string, scope: Scope, version: string, sha: string, runes: seq<Rune>, expiresAt: Option<int>)

  /** A retrievable piece of a document: what is left of its runes
      [startRune, endRune) without the white space around them. */
  datatype Chunk = Chunk(id: string, documentId: string, scope: Scope, version: string, documentSHA: string,
                         ordinal: nat, startRune: nat, endRune: nat, text: seq<Rune>, untrusted: bool, expiresAt: Option<int>)

  predicate BlankName(name: string) { forall i :: 0 <= i < |name| ==> IsSpace(name[i] as int) }

  predicate ValidScope(s: Scope) {
    !BlankName(s.tenant) && !BlankName(s.project) && |s.tenant| <= 64 && |s.project| <= 64
  }
}

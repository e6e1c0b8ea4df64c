/**
 * The element table of the game grid (types.go and client/types.go).
 *
 * Both files declare the same `Elemento` values; the client table adds
 * `PersonagemRemoto` for players other than the local one. Colours are
 * rendering only and are not modelled, so an element is its kind, its
 * glyph (`Symbol`) and its `tangivel` flag (`Tangible`).
 */
module Elements {

  datatype Elem =
    | Personagem        // the player
    | PersonagemRemoto  // another player, client table only
    | Inimigo
    | Parede
    | Vegetacao
    | Vazio
    | Moeda
    | PortalAtivo
    | Pato

  /** An inactive portal is not a separate element: it is the empty cell. */
  const PortalInativo: Elem := Vazio

  /** The glyph of each element (the `simbolo` field). */
  function Symbol(e: Elem): char {
    match e
    case Personagem => '\U{263A}'
    case PersonagemRemoto => '\U{263B}'
    case Inimigo => '\U{2620}'
    case Parede => '\U{25A4}'
    case Vegetacao => '\U{2663}'
    case Vazio => ' '
    case Moeda => '\U{105C}'
    case PortalAtivo => '\U{25CB}'
    case Pato => '\U{080E}'
  }

  /** Whether the element blocks passage (the `tangivel` field). */
  predicate Tangible(e: Elem) {
    match e
    case Personagem | PersonagemRemoto | Inimigo | Parede | Pato => true
    case Vegetacao | Vazio | Moeda | PortalAtivo => false
  }

  /** The glyphs are pairwise distinct, so a switch on `simbolo` picks out exactly one element. */
  lemma SymbolInjective(a: Elem, b: Elem)
    ensures Symbol(a) == Symbol(b) <==> a == b
  {
  }

  /** The blocking elements are exactly the characters, enemies, walls and the duck. */
  lemma TangibleElements(e: Elem)
    ensures Tangible(e) <==> e in {Personagem, PersonagemRemoto, Inimigo, Parede, Pato}
    ensures !Tangible(PortalInativo)
  {
  }

  /** The remote-player element blocks like the local one but is drawn with another glyph. */
  lemma RemoteCharacterDistinct()
    ensures Tangible(PersonagemRemoto) && Tangible(Personagem)
    ensures Symbol(PersonagemRemoto) != Symbol(Personagem)
  {
  }
}

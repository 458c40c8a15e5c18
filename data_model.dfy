/** Kotlin's nullable `T?`. */
module Nullable {
  datatype Option<T> = None | Some(value: T)
}

/** The records exchanged with the chain-reference backend: the request
    payload, the response payload and the chain of verses inside it.
    They are immutable Kotlin data classes, so they become datatypes:
    equality is field-wise, a `.(f := v)` update is Kotlin's `copy`,
    and lists keep the order they were given in. */
module DataModel {

  import opened Nullable

  /** Kotlin's `Int`, a signed 32-bit integer. */
  newtype int32 = x: int | -0x8000_0000 <= x < 0x8000_0000

  /** A secondary reference attached to a verse, under another theme. */
  datatype CrossThemeConnection = CrossThemeConnection(theme: string, reference: string, text: string)

  /** One link of the chain. `nextVerse` is the only nullable field;
      `crossThemeConnections` defaults to the empty list. */
  datatype ChainVerse = ChainVerse(
    order: int32,
    reference: string,
    text: string,
    linkingPhrase: string,
    nextVerse: Option<string>,
    crossThemeConnections: seq<CrossThemeConnection> := [])

  /** The backend's answer; `chain` defaults to the empty list. */
  datatype GeminiResponse = GeminiResponse(theme: string, summary: string, chain: seq<ChainVerse> := [])

  /** The request body: the user's question and the selected theme. */
  datatype GeminiRequest = GeminiRequest(question: string, selectedTheme: string)

  /** A verse built without connections has none, and keeps every field it was given. */
  lemma DefaultConnectionsEmpty(order: int32, reference: string, text: string, linkingPhrase: string, nextVerse: Option<string>)
    ensures var v := ChainVerse(order, reference, text, linkingPhrase, nextVerse);
      v.crossThemeConnections == [] && v.order == order && v.reference == reference &&
      v.text == text && v.linkingPhrase == linkingPhrase && v.nextVerse == nextVerse
  {
  }

  /** A response built without a chain has an empty one; it is still a present value. */
  lemma DefaultChainEmpty(theme: string, summary: string)
    ensures var r := GeminiResponse(theme, summary);
      r.chain == [] && r.theme == theme && r.summary == summary
    ensures Some(GeminiResponse(theme, summary)) != None
  {
  }

  /** Copying a verse with a new `nextVerse` changes that field and no other;
      two verses are equal exactly when all their fields are. */
  lemma ChainVerseCopy(v: ChainVerse, w: ChainVerse, next: Option<string>)
    ensures var c := v.(nextVerse := next);
      c.nextVerse == next && c.order == v.order && c.reference == v.reference &&
      c.text == v.text && c.linkingPhrase == v.linkingPhrase &&
      c.crossThemeConnections == v.crossThemeConnections
    ensures v == w <==>
      v.order == w.order && v.reference == w.reference && v.text == w.text &&
      v.linkingPhrase == w.linkingPhrase && v.nextVerse == w.nextVerse &&
      v.crossThemeConnections == w.crossThemeConnections
  {
  }

  /** Copying a response with a new chain keeps the chain exactly as supplied,
      in the supplied order, and leaves theme and summary alone. */
  lemma GeminiResponseCopy(r: GeminiResponse, chain: seq<ChainVerse>)
    ensures var c := r.(chain := chain);
      c.theme == r.theme && c.summary == r.summary &&
      |c.chain| == |chain| && forall i :: 0 <= i < |chain| ==> c.chain[i] == chain[i]
  {
  }
}

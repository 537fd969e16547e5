/** The records of the application (`types.ts`) as values. */
module Types {

  datatype Option<+T> = None | Some(value: T)

  /** A landmark of the catalog, or one synthesised after a recognition. */
  datatype Monument = Monument(id: int, name: string, latitude: real, longitude: real, category: string)

  /** A navigation tab; its id is the key the screen dispatch switches on
      (`caption` holds the source's `label`, a reserved word in Dafny). */
  datatype Tab = Tab(id: string, caption: string, icon: string)

  datatype Sender = User | Bot

  /** One entry of the chat log; `timestamp` doubles as the entry's key. */
  datatype ChatMessage = ChatMessage(sender: Sender, text: string, timestamp: string)
}

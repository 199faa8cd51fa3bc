/** Record shapes shared by the two views (types.ts). */
module Types {

  /** An optional value: the result of a lookup that may find nothing, or of a parse that may fail. */
  datatype Option<T> = None | Some(value: T)

  /** One entry of the named-value registry. `id` is fixed when the record is
      created; `name` is the key the editor looks records up by. */
  datatype GameValue = GameValue(id: string, name: string, value: string)

  /** The two games a currency grant can be for ('Roblox' | 'Free Fire'). */
  datatype Game = Roblox | FreeFire

  /** One entry of the currency generation log. `timestamp` is the
      human-readable creation time, supplied by the caller. */
  datatype GeneratedCurrency = GeneratedCurrency(game: Game, userId: string, amount: int, timestamp: string)
}

/** The keyword table of the lexer (internal/query/sql/lexer.go). */
module Keywords {
  import opened Bytes
  import opened Engine
  import opened Lexer

  const AGGREGATES: set<string> := {"COUNT", "SUM", "MIN", "MAX", "AVG", "FIRST", "LAST"}

  const OTHER_WORDS: set<string> := {
    "INSERT", "UPDATE", "DELETE", "FROM", "WHERE", "AS", "ORDER", "BY", "ASC", "DESC", "GROUP", "LIMIT", "OFFSET",
    "SET", "INTO", "VALUES", "CREATE", "TABLE", "INDEX", "DROP", "JOIN", "LEFT", "ON", "EXISTS", "ALTER", "SHOW",
    "DESCRIBE", "ADD", "COLUMN", "MODIFY", "PRIMARY", "KEY", "IF", "TABLES", "INT", "INTEGER", "VARCHAR", "TEXT",
    "STRING", "FLOAT", "BOOL", "BOOLEAN", "DEFAULT", "USING", "HASH", "BTREE", "INVERTED", "FULLTEXT", "INDEXES",
    "UNIQUE", "AGAINST"}

  predicate IsOneOf(words: set<string>, upper: Key) {
    exists w :: w in words && Ascii(w) == upper
  }

  /** The kind of a word in upper case; None when it is not a keyword. */
  function KeywordKind(upper: Key): Option<Kind> {
    if upper == Ascii("AND") then Some(WordAnd)
    else if upper == Ascii("OR") then Some(WordOr)
    else if upper == Ascii("NOT") then Some(WordNot)
    else if upper == Ascii("IN") then Some(WordIn)
    else if upper == Ascii("IS") then Some(WordIs)
    else if upper == Ascii("NULL") then Some(WordNull)
    else if upper == Ascii("TRUE") then Some(WordTrue)
    else if upper == Ascii("FALSE") then Some(WordFalse)
    else if upper == Ascii("LIKE") then Some(WordLike)
    else if upper == Ascii("BETWEEN") then Some(WordBetween)
    else if upper == Ascii("SELECT") then Some(WordSelect)
    else if upper == Ascii("MATCH") then Some(WordMatch)
    else if IsOneOf(AGGREGATES, upper) then Some(WordAggregate)
    else if IsOneOf(OTHER_WORDS, upper) then Some(Word)
    else None
  }
}

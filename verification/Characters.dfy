/** The character classes of the regular expressions of cxxopts, in ASCII. */
module Characters {
  // [[:alnum:]]
  predicate IsAlnum(c: char) {
    '0' <= c <= '9' || 'a' <= c <= 'z' || 'A' <= c <= 'Z'
  }
}

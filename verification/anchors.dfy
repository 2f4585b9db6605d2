/** Anchors in HTML text: where a link's `#` target and a section's `id`
    attribute name the same thing. */
module Anchors {
  /** `s` holds `id="`, the opening of a quoted `id` attribute, at `j`. */
  predicate IdOpenAt(s: string, j: nat) {
    j + 4 <= |s| && s[j] == 'i' && s[j + 1] == 'd' && s[j + 2] == '=' && s[j + 3] == '"'
  }

  /** `s` holds `href="`, the opening of a quoted `href` attribute, at `j`. */
  predicate HrefOpenAt(s: string, j: nat) {
    && j + 6 <= |s| && s[j] == 'h' && s[j + 1] == 'r' && s[j + 2] == 'e' && s[j + 3] == 'f'
    && s[j + 4] == '=' && s[j + 5] == '"'
  }

  /** At `at`, `html` holds the number `n` of a link target: `href="#`,
      the key, then `n`, then the quote that closes the attribute. */
  predicate TargetAt(html: string, at: nat, key: string, n: string) {
    && |key| + 7 <= at && at + |n| < |html|
    && HrefOpenAt(html, at - |key| - 7)
    && html[at - |key| - 1] == '#'
    && html[at - |key|..at] == key
    && html[at..at + |n|] == n
    && html[at + |n|] == '"'
  }

  /** At `at`, `html` holds the number `n` of an `id` attribute: `id="`,
      the key, then `n`, then the closing quote. */
  predicate IdAt(html: string, at: nat, key: string, n: string) {
    && |key| + 4 <= at && at + |n| < |html|
    && IdOpenAt(html, at - |key| - 4)
    && html[at - |key|..at] == key
    && html[at..at + |n|] == n
    && html[at + |n|] == '"'
  }
}

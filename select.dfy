/** An `<option>` of a `<select>` control: the value it submits and the text it shows. */
module Select {
  datatype Choice = Choice(value: string, text: string)
}

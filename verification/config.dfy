/** Fixed configuration shared by the detector and the calorie table. */
module Config {

  /** The detection model's class names, indexed by class id. */
  const FoodClasses: seq<string> := [
    "Apple", "Banana", "Watermelon", "Strawberry", "Orange",
    "Bread", "Carrot", "Cucumber", "Broccoli", "Pizza"
  ]
}
